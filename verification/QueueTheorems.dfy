/** What the queue guarantees over every run, from creation to shutdown. */
module QueueTheorems {
  import opened Basics
  import opened QueueState
  import opened QueueInvariant
  import opened QueueSteps

  lemma EmptyLists(s: State)
    requires s.ready == [] && s.lanes == map[] && s.arena == [] && s.active == {} && s.calls == []
    requires s.admitted == [] && s.fate == [] && s.finishCalls == [] && s.runs == [] && s.starts == []
    ensures Lists(s) && Calls(s)
  {
  }

  lemma EmptyCounters(s: State)
    requires s.ready == [] && s.arena == [] && s.active == {} && s.calls == []
    requires s.pending == s.workers == s.finishing == 0 && 1 <= s.capacity && 1 <= s.concurrency
    ensures Counters(s) && Conserved(s)
  {
  }

  lemma InitialInv(s: State)
    requires s == Initial(s.capacity, s.concurrency) && 1 <= s.capacity && 1 <= s.concurrency
    ensures Inv(s)
  {
    EmptyLists(s);
    EmptyCounters(s);
    Assemble(s);
  }

  lemma Assemble(s: State)
    requires Lists(s) && Calls(s) && Counters(s) && Conserved(s) && !s.done && !s.closed
    ensures Inv(s)
  {
  }

  lemma StepKeepsInv(s: State, step: Step)
    requires Inv(s) && Enabled(s, step)
    ensures Inv(Next(s, step))
  {
    hide Submit, Pick, Retire, Begin, Report, Complete, CancelClaim, Stop, Drop, EndCall;
    match step
    case DoSubmit(key, policy) => SubmitKeepsInv(s, key, policy);
    case DoPick => PickKeepsInv(s);
    case DoRetire => RetireKeepsInv(s);
    case DoBegin(j, live) => BeginKeepsInv(s, j, live);
    case DoReport(j) => ReportKeepsInv(s, j);
    case DoComplete(j) => CompleteKeepsInv(s, j);
    case DoCancel(j) => CancelKeepsInv(s, j);
    case DoStop(all, removed) => StopKeepsInv(s, all, removed);
    case DoDrop(c) => DropKeepsInv(s, c);
    case DoEndCall(c) => EndCallKeepsInv(s, c);
  }

  lemma SubmitKeepsInv(s: State, key: Key, policy: ShutdownPolicy)
    requires Core(s) && WellIndexed(s) && CanSubmit(s)
    ensures Inv(Submit(s, key, policy))
  {
    SubmitKeepsCore(s, key, policy);
    QueueKeepsLists(s, key, policy);
    SubmitCounters(s, key, policy);
    OpenInv(Submit(s, key, policy));
  }

  lemma OpenInv(s: State)
    requires Core(s) && !s.closed
    ensures Inv(s)
  {
  }

  lemma PickKeepsInv(s: State)
    requires Core(s) && WellIndexed(s) && CanPick(s)
    ensures Inv(Pick(s))
  {
    PickKeepsCore(s);
    CoreWithWorkers(Pick(s));
  }

  lemma CompleteKeepsInv(s: State, j: Job)
    requires Core(s) && CanComplete(s, j)
    ensures Inv(Complete(s, j))
  {
    CompleteKeepsCore(s, j);
    CoreWithWorkers(Complete(s, j));
  }

  /** Safety over whole runs: every reachable state meets the invariant. */
  lemma {:induction false} RunKeepsInv(s: State, run: seq<Step>, t: State)
    requires Inv(s) && Run(s, run, t)
    ensures Inv(t)
    decreases |run|
  {
    if run != [] {
      StepKeepsInv(s, run[0]);
      RunKeepsInv(Next(s, run[0]), run[1..], t);
    }
  }

  /** Reached from a new queue by some interleaving of critical sections. */
  ghost predicate Reachable(s: State) {
    exists capacity, concurrency, run ::
      1 <= capacity && 1 <= concurrency && Run(Initial(capacity, concurrency), run, s)
  }

  lemma ReachableInv(s: State)
    requires Reachable(s)
    ensures Inv(s)
  {
    var capacity, concurrency, run :| 1 <= capacity && 1 <= concurrency && Run(Initial(capacity, concurrency), run, s);
    InitialInv(Initial(capacity, concurrency));
    RunKeepsInv(Initial(capacity, concurrency), run, s);
  }

  // ---- no job is stranded -------------------------------------------------------

  lemma {:induction false} FindWaitingLane(arena: seq<Lane>) returns (l: nat)
    requires LaneLengths(arena) > 0
    ensures l < |arena| && arena[l].jobs != []
  {
    l := |arena| - 1;
    if arena[l].jobs == [] { l := FindWaitingLane(arena[..l]); }
  }

  lemma {:induction false} RunnableAtLeast(ready: seq<nat>, arena: seq<Lane>, l: nat)
    requires forall i :: 0 <= i < |ready| ==> ready[i] < |arena|
    requires l in ready && arena[l].jobs != []
    ensures 1 <= Runnable(ready, arena)
  {
    if ready[0] != l { RunnableAtLeast(ready[1..], arena, l); }
  }

  /** A waiting job is in a lane on the ready list, or behind an active job of its key;
      either way, by work conservation, some worker is alive. */
  lemma PendingHasWorker(s: State)
    requires Core(s) && s.pending > 0
    ensures s.workers > 0
  {
    var l := FindWaitingLane(s.arena);
    if Takeable(s.arena[l]) {
      RunnableAtLeast(s.ready, s.arena, l);
    } else {
      ActiveCountsOne(s, l);
    }
  }

  lemma ActiveCountsOne(s: State, l: nat)
    requires ActiveJobs(s) && l < |s.arena| && s.arena[l].active > 0
    ensures s.active != {} && |s.active| > 0
  {
    assert ActiveOn(s.active, l) != {};
    var j :| j in ActiveOn(s.active, l);
    assert j in s.active;
  }

  /** Work conservation in every reachable state, open or closed, within the limits. */
  lemma NoJobStranded(s: State)
    requires Reachable(s)
    ensures forall i :: 0 <= i < |s.ready| ==> s.ready[i] < |s.arena|
    ensures s.workers == s.concurrency || s.workers - |s.active| >= Runnable(s.ready, s.arena)
    ensures s.pending > 0 ==> s.workers > 0
    ensures s.pending == LaneLengths(s.arena) <= s.capacity
    ensures |s.active| <= s.workers <= s.concurrency
  {
    ReachableInv(s);
    if s.pending > 0 { PendingHasWorker(s); }
  }

  /** A lane is on the ready list, once, exactly when it has jobs and its key, if it has
      one, has nothing active. */
  lemma ReadyListExact(s: State, l: nat)
    requires Reachable(s) && l < |s.arena|
    ensures l in s.ready <==>
              s.arena[l].jobs != [] && (s.arena[l].key == NoKey || forall j :: j in s.active ==> j.lane != l)
    ensures forall i, k :: 0 <= i < k < |s.ready| ==> s.ready[i] != s.ready[k]
  {
    ReachableInv(s);
    if s.arena[l].active == 0 {
      assert ActiveOn(s.active, l) == {};
      forall j | j in s.active ensures j.lane != l { assert j !in ActiveOn(s.active, l); }
    } else {
      var j :| j in ActiveOn(s.active, l);
      assert j in s.active && j.lane == l;
    }
  }

  // ---- keys -------------------------------------------------------------------

  lemma SingletonActive(active: set<Job>, l: nat, a: Job, b: Job)
    requires a in active && b in active && a.lane == l && b.lane == l && |ActiveOn(active, l)| <= 1
    ensures a == b
  {
    assert a in ActiveOn(active, l) && b in ActiveOn(active, l);
    var rest := ActiveOn(active, l) - {a};
    assert |rest| == |ActiveOn(active, l)| - 1;
    assert rest == {};
    assert b != a ==> b in rest;
  }

  lemma ActiveLaneLive(s: State, j: Job)
    requires ActiveJobs(s) && LaneTable(s) && j in s.active
    ensures j.key in s.lanes && s.lanes[j.key] == j.lane
  {
    ActiveLane(s, j);
  }

  /** Two jobs with the same non-nil key are never active together, even if the lane of
      that key was dropped from the table and made again in between. */
  lemma KeysExclude(s: State, a: Job, b: Job)
    requires Reachable(s) && a in s.active && b in s.active && a.key == b.key && a.key != NoKey
    ensures a == b
  {
    ReachableInv(s);
    ActiveLaneLive(s, a);
    ActiveLaneLive(s, b);
    ActiveLane(s, a);
    SingletonActive(s.active, a.lane, a, b);
  }

  /** Two live lanes never share a key. */
  lemma OneLiveLanePerKey(s: State, l: nat, m: nat)
    requires Reachable(s) && l < |s.arena| && m < |s.arena| && s.arena[l].key == s.arena[m].key
    requires Live(s.arena[l]) && Live(s.arena[m])
    ensures l == m
  {
    ReachableInv(s);
  }

  /** Jobs of one key start in the order they were admitted, and no job that is still
      waiting was admitted before a started job of its key. */
  lemma StartsInAdmissionOrder(s: State)
    requires Reachable(s)
    ensures forall a, b :: 0 <= a < b < |s.starts| && s.starts[a].key == s.starts[b].key ==>
              s.starts[a].id < s.starts[b].id
    ensures |s.fate| == |s.admitted|
    ensures forall a, i :: 0 <= a < |s.starts| && 0 <= i < |s.admitted| && s.fate[i] == Waiting ==>
              s.admitted[i].key == s.starts[a].key ==> s.starts[a].id < i
  {
    ReachableInv(s);
  }

  // ---- shutdown ----------------------------------------------------------------

  /** `done` is closed exactly when the queue is closed and idle, and from then on
      nothing runs and no Finish is due: every admitted job has had its one call. */
  lemma DoneMeansDelivered(s: State)
    requires Reachable(s)
    ensures s.done <==> s.closed && s.workers == 0 && s.pending == 0 && s.finishing == 0
    ensures s.done ==>
              s.active == {} && forall i :: 0 <= i < |s.admitted| ==> i < |s.finishCalls| && s.finishCalls[i] == 1
  {
    ReachableInv(s);
    if s.done {
      forall i | 0 <= i < |s.admitted|
        ensures i < |s.finishCalls| && s.finishCalls[i] == 1
      {
        DeliveredWhenDrained(s, i);
      }
    }
  }

  lemma DeliveredWhenDrained(s: State, i: nat)
    requires Core(s) && Drained(s) && i < |s.admitted|
    ensures s.active == {} && s.finishCalls[i] == 1
  {
    if s.fate[i] == Waiting {
      assert InLane(s, s.admitted[i]);
      LaneLengthsZero(s.arena);
    } else if s.fate[i].Claimed? {
      OpenJobsAtLeast(s.calls, s.fate[i].call);
    }
  }

  /** Once `done` is closed no step but a repeated stop, or the end of an empty one,
      is possible: no admission, no start, no Finish. */
  lemma NothingAfterDone(s: State, step: Step)
    requires Reachable(s) && s.done && Enabled(s, step)
    ensures step.DoStop? || step.DoEndCall?
    ensures Next(s, step).done && Next(s, step).starts == s.starts && Next(s, step).finishCalls == s.finishCalls
  {
    ReachableInv(s);
    assert s.active == {};
    match step
    case DoBegin(j, _) => assert false;
    case DoReport(j) => assert false;
    case DoComplete(j) => assert false;
    case DoCancel(j) => LaneLengthsZero(s.arena);
    case DoDrop(c) => OpenJobsAtLeast(s.calls, c);
    case DoStop(all, removed) => StopAfterDone(s, all, removed);
    case _ =>
  }

  lemma StopAfterDone(s: State, all: bool, removed: seq<Job>)
    requires Core(s) && s.done && CanStop(s, all, removed)
    ensures Stop(s, all, removed).done && Stop(s, all, removed).starts == s.starts
    ensures Stop(s, all, removed).finishCalls == s.finishCalls
  {
    if removed != [] {
      assert InLane(s, removed[0]);
      LaneLengthsZero(s.arena);
    }
  }

  /** Steps still owed: an upper bound on what can happen before `done`. */
  function Measure(s: State): int {
    2 * s.pending + Unreported(s.fate) + |s.active| + s.workers + Owed(s.calls)
  }

  /** For each job: the calls of Run and of Finish that a worker may still owe it. */
  function Unreported(fate: seq<Fate>): nat {
    if fate == [] then 0 else Unreported(fate[..|fate| - 1]) + Unmade(fate[|fate| - 1])
  }

  function Unmade(f: Fate): nat { if f == Waiting || f == Picked then 2 else if f == Running then 1 else 0 }

  /** For each open call: one Finish for each job it still owes, and its last section. */
  function Owed(calls: seq<Call>): int {
    if calls == [] then 0
    else Owed(calls[..|calls| - 1]) + Due(calls[|calls| - 1])
  }

  lemma {:induction false} UnreportedUpdate(fate: seq<Fate>, i: nat, f: Fate)
    requires i < |fate|
    ensures Unreported(fate[i := f]) == Unreported(fate) - Unmade(fate[i]) + Unmade(f)
  {
    var n := |fate| - 1;
    if i < n {
      UnreportedUpdate(fate[..n], i, f);
      assert fate[i := f][..n] == fate[..n][i := f];
    } else {
      assert fate[i := f][..n] == fate[..n];
    }
  }

  function Due(call: Call): int { if call.open then |call.jobs| - call.next + 1 else 0 }

  lemma {:induction false} OwedUpdate(calls: seq<Call>, c: nat, call: Call)
    requires c < |calls|
    ensures Owed(calls[c := call]) == Owed(calls) - Due(calls[c]) + Due(call)
  {
    var n := |calls| - 1;
    if c < n {
      OwedUpdate(calls[..n], c, call);
      assert calls[c := call][..n] == calls[..n][c := call];
    } else {
      assert calls[c := call][..n] == calls[..n];
    }
  }

  lemma OwedNonNegative(calls: seq<Call>)
    requires forall c :: 0 <= c < |calls| ==> calls[c].next <= |calls[c].jobs|
    ensures 0 <= Owed(calls)
  {
  }

  lemma CancelDecreases(s: State, j: Job)
    requires ReadyList(s) && Queued(s) && InLane(s, j) && j.id < |s.fate|
    ensures Measure(CancelClaim(s, j)) < Measure(s)
  {
    WaitingIn(s, j);
    var o := OpenCall(s);
    var t := CancelClaim(s, j);
    RemovePendingForm(o, j);
    assert o.calls[..|s.calls|] == s.calls;
    OwedUpdate(o.calls, |s.calls|, t.calls[|s.calls|]);
    UnreportedUpdate(s.fate, j.id, t.fate[j.id]);
  }

  lemma PickDecreases(s: State)
    requires Core(s) && WellIndexed(s) && CanPick(s)
    ensures Measure(Pick(s)) < Measure(s)
  {
    PickForm(s);
    var j := s.arena[s.ready[0]].jobs[0];
    WaitingIn(s, j);
    UnreportedUpdate(s.fate, j.id, Picked);
  }

  lemma CompleteDecreases(s: State, j: Job)
    requires LaneTable(s) && ReadyList(s) && ActiveJobs(s) && CanComplete(s, j)
    ensures Measure(Complete(s, j)) < Measure(s)
  {
    hide Complete, LaneTable, ReadyList, ActiveJobs;
    ActiveLane(s, j);
    CompleteForm(s, j);
    UnreportedUpdate(s.fate, j.id, Completed);
  }

  lemma CallsDecrease(s: State, j: Job)
    ensures forall live :: CanBegin(s, j) ==> Measure(Begin(s, j, live)) < Measure(s)
    ensures CanReport(s, j) ==> Measure(Report(s, j)) < Measure(s)
  {
    if j.id < |s.fate| {
      UnreportedUpdate(s.fate, j.id, Running);
      UnreportedUpdate(s.fate, j.id, Reported);
    }
  }

  lemma DropDecreases(s: State, c: nat)
    requires CanDrop(s, c)
    ensures Measure(Drop(s, c)) < Measure(s)
  {
    OwedUpdate(s.calls, c, Drop(s, c).calls[c]);
    UnreportedUpdate(s.fate, s.calls[c].jobs[s.calls[c].next].id, Dropped);
  }

  lemma EndCallDecreases(s: State, c: nat)
    requires CanEndCall(s, c)
    ensures Measure(EndCall(s, c)) < Measure(s)
  {
    OwedUpdate(s.calls, c, s.calls[c].(open := false));
  }

  lemma StaysClosed(s: State, step: Step)
    requires Inv(s) && s.closed && Enabled(s, step) && !step.DoStop?
    ensures Next(s, step).closed
  {
    match step
    case DoPick => PickForm(s);
    case DoComplete(j) => ActiveLane(s, j); CompleteForm(s, j);
    case DoCancel(j) => RemovePendingForm(OpenCall(s), j);
    case _ =>
  }

  /** In a closed queue every step but another stop uses up part of the measure. */
  lemma ClosedStepDecreases(s: State, step: Step)
    requires Inv(s) && s.closed && Enabled(s, step) && !step.DoStop?
    ensures Next(s, step).closed && Measure(Next(s, step)) < Measure(s)
  {
    hide Pick, Begin, Report, Complete, CancelClaim, Drop, EndCall;
    StaysClosed(s, step);
    match step
    case DoPick => PickDecreases(s);
    case DoRetire =>
    case DoBegin(j, live) => CallsDecrease(s, j);
    case DoReport(j) => CallsDecrease(s, j);
    case DoComplete(j) => CompleteDecreases(s, j);
    case DoCancel(j) => CancelDecreases(s, j);
    case DoDrop(c) => DropDecreases(s, c);
    case DoEndCall(c) => EndCallDecreases(s, c);
  }

  lemma MeasureNonNegative(s: State)
    requires Inv(s)
    ensures 0 <= Measure(s)
  {
    OwedNonNegative(s.calls);
  }

  /** However the goroutines interleave, a closed queue makes only so many more steps. */
  lemma {:induction false} ShutdownBounded(s: State, run: seq<Step>, t: State)
    requires Inv(s) && s.closed && Run(s, run, t) && forall step <- run :: !step.DoStop?
    ensures |run| <= Measure(s) && Inv(t) && t.closed
    decreases |run|
  {
    MeasureNonNegative(s);
    if run != [] {
      StepKeepsInv(s, run[0]);
      ClosedStepDecreases(s, run[0]);
      ShutdownBounded(Next(s, run[0]), run[1..], t);
    }
  }

  /** A closed queue that is not done has a worker or a claiming goroutine that can
      take its next step, provided tasks return. */
  lemma ShutdownProgress(s: State) returns (step: Step)
    requires Inv(s) && s.closed && !s.done
    ensures Enabled(s, step) && !step.DoSubmit? && !step.DoCancel? && !step.DoStop?
  {
    CoreIsWellIndexed(s);
    if s.active != {} {
      var j :| j in s.active;
      ActiveLane(s, j);
      step := if s.fate[j.id] == Picked then DoBegin(j, true)
              else if s.fate[j.id] == Running then DoReport(j)
              else DoComplete(j);
    } else if s.workers > 0 {
      step := if s.ready != [] then DoPick else DoRetire;
    } else {
      if s.pending > 0 { PendingHasWorker(s); }
      step := OpenCallStep(s);
    }
  }

  lemma {:induction false} FindOpen(calls: seq<Call>) returns (c: nat)
    requires OpenJobs(calls) > 0
    ensures c < |calls| && calls[c].open
  {
    c := |calls| - 1;
    if !calls[c].open { c := FindOpen(calls[..c]); }
  }

  lemma OpenCallStep(s: State) returns (step: Step)
    requires Inv(s) && WellIndexed(s) && s.finishing > 0
    ensures Enabled(s, step) && (step.DoDrop? || step.DoEndCall?)
  {
    var c := FindOpen(s.calls);
    step := if s.calls[c].next < |s.calls[c].jobs| then DoDrop(c) else DoEndCall(c);
  }

  /** Shutdown ends: from every closed reachable state there is a way to `done`, and by
      ShutdownBounded and ShutdownProgress every run without a further stop that is
      carried on as long as it can be gets there within the measure. */
  lemma {:induction false} ShutdownEnds(s: State) returns (run: seq<Step>, t: State)
    requires Inv(s) && s.closed
    ensures Run(s, run, t) && t.done && |run| <= Measure(s) && forall step <- run :: !step.DoStop?
    decreases Measure(s)
  {
    MeasureNonNegative(s);
    if s.done {
      run, t := [], s;
    } else {
      var step := ShutdownProgress(s);
      var n := Next(s, step);
      StepKeepsInv(s, step);
      ClosedStepDecreases(s, step);
      MeasureNonNegative(n);
      var rest, u := ShutdownEnds(n);
      run, t := [step] + rest, u;
      assert run[1..] == rest;
    }
  }

  // ---- the life of a job ---------------------------------------------------------

  predicate Moves(a: Fate, b: Fate) {
    || a == b
    || (a == Waiting && (b == Picked || b.Claimed?))
    || (a == Picked && b == Running)
    || (a == Running && b == Reported)
    || (a == Reported && b == Completed)
    || (a.Claimed? && b == Dropped)
  }

  /** Only these steps take a waiting job away from the workers. */
  ghost predicate Takes(step: Step, j: Job) {
    (step.DoCancel? && step.job == j) || (step.DoStop? && Stoppable(step.all, j))
  }

  lemma ClaimMoves(s: State, c: nat, j: Job, i: nat)
    requires Core(s) && InLane(s, j) && c < |s.calls| && j.id < |s.fate| && i < |s.admitted|
    ensures var t := Claim(s, c, j);
            && |t.fate| == |s.fate| && t.admitted == s.admitted
            && (t.fate[i] == s.fate[i] || (s.fate[i] == Waiting && t.fate[i].Claimed? && s.admitted[i] == j))
  {
    WaitingIn(s, j);
    RemovePendingForm(s, j);
  }

  lemma {:induction false} ClaimAllMoves(s: State, c: nat, js: seq<Job>, i: nat)
    requires Core(s) && c < |s.calls| && s.calls[c].open && i < |s.admitted|
    ensures var t := ClaimAll(s, c, js);
            && |t.fate| == |s.fate| && t.admitted == s.admitted
            && (t.fate[i] == s.fate[i] || (s.fate[i] == Waiting && t.fate[i].Claimed? && s.admitted[i] in js))
    decreases |js|
  {
    if js != [] {
      var before := js[..|js| - 1];
      var t := ClaimAll(s, c, before);
      var j := js[|js| - 1];
      ClaimAllMoves(s, c, before, i);
      ClaimAllKeepsCore(s, c, before);
      if InLane(t, j) { WaitingIn(t, j); ClaimMoves(t, c, j, i); }
    }
  }

  lemma ClaimLeaves(s: State, c: nat, j: Job)
    requires ReadyList(s) && Queued(s) && InLane(s, j) && c < |s.calls| && j.id < |s.fate|
    ensures var t := Claim(s, c, j); forall x :: InLane(t, x) <==> InLane(s, x) && x != j
  {
    RemovePendingForm(s, j);
    RemoveAscending(s.arena[j.lane].jobs, j);
  }

  lemma {:induction false} ClaimAllLeaves(s: State, c: nat, js: seq<Job>)
    requires Core(s) && c < |s.calls| && s.calls[c].open
    ensures var t := ClaimAll(s, c, js); forall x :: InLane(t, x) <==> InLane(s, x) && x !in js
    decreases |js|
  {
    if js != [] {
      var before := js[..|js| - 1];
      var t := ClaimAll(s, c, before);
      var j := js[|js| - 1];
      assert forall x :: x in js <==> x in before || x == j;
      ClaimAllLeaves(s, c, before);
      ClaimAllKeepsCore(s, c, before);
      if InLane(t, j) {
        WaitingIn(t, j);
        ClaimLeaves(t, c, j);
      }
    }
  }

  /** A stop takes from the lanes exactly the pending jobs its policy covers. */
  lemma StopLeavesTheRest(s: State, all: bool, removed: seq<Job>)
    requires Inv(s) && CanStop(s, all, removed)
    ensures var t := Stop(s, all, removed);
            t.closed && forall x :: InLane(t, x) <==> InLane(s, x) && !Stoppable(all, x)
  {
    var o := OpenCall(s.(closed := true));
    OpenCallKeepsCore(s, true);
    ClaimAllLeaves(o, |s.calls|, removed);
    ClaimAllClosed(o, |s.calls|, removed);
    forall x ensures InLane(s, x) && x !in removed <==> InLane(s, x) && !Stoppable(all, x) {}
  }

  lemma {:induction false} ClaimAllClosed(s: State, c: nat, js: seq<Job>)
    ensures ClaimAll(s, c, js).closed == s.closed
    decreases |js|
  {
    if js != [] { ClaimAllClosed(s, c, js[..|js| - 1]); }
  }

  /** A job's fate only moves forward, and leaves the workers' path only when a stop or
      its own cancellation takes it. */
  ghost predicate Moved(s: State, step: Step, t: State, i: nat) {
    && i < |s.admitted| == |s.fate|
    && |s.admitted| <= |t.admitted| == |t.fate| && t.admitted[i] == s.admitted[i]
    && Moves(s.fate[i], t.fate[i])
    && (t.fate[i].Claimed? && s.fate[i] == Waiting ==> Takes(step, s.admitted[i]))
  }

  lemma StopMoves(s: State, all: bool, removed: seq<Job>, i: nat)
    requires Inv(s) && CanStop(s, all, removed) && i < |s.admitted|
    ensures Moved(s, DoStop(all, removed), Stop(s, all, removed), i)
  {
    var o := OpenCall(s.(closed := true));
    OpenCallKeepsCore(s, true);
    ClaimAllMoves(o, |s.calls|, removed, i);
  }

  lemma SubmitMoves(s: State, key: Key, policy: ShutdownPolicy, i: nat)
    requires Core(s) && WellIndexed(s) && CanSubmit(s) && i < |s.admitted|
    ensures Moved(s, DoSubmit(key, policy), Submit(s, key, policy), i)
  {
    QueueForm(s, key, policy);
    QueueKeepsLists(s, key, policy);
    SubmitCounters(s, key, policy);
  }

  lemma PickMoves(s: State, i: nat)
    requires Core(s) && WellIndexed(s) && s.ready != [] && i < |s.admitted|
    ensures Moved(s, DoPick, Pick(s), i)
  {
    PickForm(s);
    WaitingIn(s, s.arena[s.ready[0]].jobs[0]);
  }

  lemma CompleteMoves(s: State, j: Job, i: nat)
    requires Core(s) && CanComplete(s, j) && i < |s.admitted|
    ensures Moved(s, DoComplete(j), Complete(s, j), i)
  {
    ActiveLane(s, j);
    CompleteForm(s, j);
  }

  lemma CancelMoves(s: State, j: Job, i: nat)
    requires Core(s) && InLane(s, j) && j.id < |s.fate| && i < |s.admitted|
    ensures Moved(s, DoCancel(j), CancelClaim(s, j), i)
  {
    WaitingIn(s, j);
    RemovePendingForm(OpenCall(s), j);
  }

  lemma DropMoves(s: State, c: nat, i: nat)
    requires WellIndexed(s) && Calls(s) && CanDrop(s, c) && i < |s.admitted|
    ensures Moved(s, DoDrop(c), Drop(s, c), i)
  {
  }

  lemma CallsMove(s: State, j: Job, i: nat)
    requires WellIndexed(s) && i < |s.admitted|
    ensures forall live :: CanBegin(s, j) ==> Moved(s, DoBegin(j, live), Begin(s, j, live), i)
    ensures CanReport(s, j) ==> Moved(s, DoReport(j), Report(s, j), i)
  {
  }

  lemma CountersMove(s: State, i: nat)
    requires WellIndexed(s) && i < |s.admitted|
    ensures Moved(s, DoRetire, Retire(s), i)
    ensures forall c :: CanEndCall(s, c) ==> Moved(s, DoEndCall(c), EndCall(s, c), i)
  {
  }

  lemma StepMoves(s: State, step: Step, i: nat)
    requires Inv(s) && Enabled(s, step) && i < |s.admitted|
    ensures Moved(s, step, Next(s, step), i)
  {
    hide Submit, Pick, Retire, Begin, Report, Complete, CancelClaim, Stop, Drop, EndCall, Moved;
    match step
    case DoSubmit(key, policy) => SubmitMoves(s, key, policy, i);
    case DoPick => PickMoves(s, i);
    case DoRetire => CountersMove(s, i);
    case DoBegin(j, live) => CallsMove(s, j, i);
    case DoReport(j) => CallsMove(s, j, i);
    case DoComplete(j) => CompleteMoves(s, j, i);
    case DoCancel(j) => CancelMoves(s, j, i);
    case DoStop(all, removed) => StopMoves(s, all, removed, i);
    case DoDrop(c) => DropMoves(s, c, i);
    case DoEndCall(c) => CountersMove(s, i);
  }

  predicate OffPath(f: Fate) { f.Claimed? || f == Dropped }

  /** A job removed while it was pending never runs, in any continuation. */
  lemma {:induction false} RemovedNeverRuns(s: State, run: seq<Step>, t: State, i: nat)
    requires Inv(s) && Run(s, run, t) && i < |s.admitted| && OffPath(s.fate[i])
    ensures i < |t.fate| == |t.runs| == |t.finishCalls| && OffPath(t.fate[i]) && t.runs[i] == 0 && t.finishCalls[i] <= 1
    decreases |run|
  {
    hide Next, Enabled;
    if run != [] {
      StepKeepsInv(s, run[0]);
      StepMoves(s, run[0], i);
      RemovedNeverRuns(Next(s, run[0]), run[1..], t, i);
    }
  }

  /** No job ever has a second Finish, or runs twice, in any reachable state; only between
      the two calls has one run and not been finished. */
  lemma AtMostOnce(s: State, i: nat)
    requires Reachable(s) && i < |s.admitted|
    ensures |s.finishCalls| == |s.runs| == |s.fate| == |s.admitted| && s.finishCalls[i] <= 1 && s.runs[i] <= 1
    ensures s.runs[i] > s.finishCalls[i] ==> s.fate[i] == Running && s.admitted[i] in s.active
    ensures s.runs[i] == 1 ==> !OffPath(s.fate[i]) && !InLane(s, s.admitted[i])
  {
    ReachableInv(s);
    if InLane(s, s.admitted[i]) { WaitingIn(s, s.admitted[i]); }
  }

  /** Steps that respect Drain: no stop(true), and no cancelled context for the job. */
  ghost predicate Respects(run: seq<Step>, j: Job) {
    forall step <- run :: !Takes(step, j)
  }

  /** A Drain job that is neither cancelled by its context nor cut off by stop(true) is
      taken by a worker before the queue is done. */
  lemma {:induction false} DrainJobsRun(s: State, run: seq<Step>, t: State, i: nat)
    requires Inv(s) && Run(s, run, t) && i < |s.admitted|
    requires Respects(run, s.admitted[i]) && !OffPath(s.fate[i])
    ensures i < |t.admitted| && t.admitted[i] == s.admitted[i] && |t.fate| == |t.finishCalls| == |t.admitted|
            && !OffPath(t.fate[i])
    ensures t.done ==> t.fate[i] == Completed && t.finishCalls[i] == 1
    decreases |run|
  {
    hide Next, Enabled;
    if run != [] {
      StepKeepsInv(s, run[0]);
      StepMoves(s, run[0], i);
      assert run[0] in run;
      assert forall step <- run[1..] :: step in run;
      DrainJobsRun(Next(s, run[0]), run[1..], t, i);
    } else if s.done {
      DeliveredWhenDrained(s, i);
    }
  }
}
