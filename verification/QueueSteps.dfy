/** Each step of the queue keeps the invariant. */
module QueueSteps {
  import opened Basics
  import opened QueueState
  import opened QueueInvariant

  lemma CoreIsWellIndexed(s: State)
    requires Core(s)
    ensures WellIndexed(s)
  {
    forall i | 0 <= i < |s.ready| ensures s.ready[i] < |s.arena| && s.arena[s.ready[i]].jobs != [] {
      assert s.ready[i] in s.ready;
    }
    forall l, i | 0 <= l < |s.arena| && 0 <= i < |s.arena[l].jobs|
      ensures s.arena[l].jobs[i].id < |s.admitted| && s.arena[l].jobs[i].lane == l
    {
      assert Resides(s, l, s.arena[l].jobs[i]);
    }
  }

  // ---- frames ---

  ghost predicate Lists(s: State) {
    LaneTable(s) && ReadyList(s) && Queued(s) && ActiveJobs(s) && Deliveries(s) && StartOrder(s)
  }

  ghost predicate SameLists(s: State, t: State) {
    && t.ready == s.ready && t.lanes == s.lanes && t.arena == s.arena && t.active == s.active
    && t.admitted == s.admitted && t.fate == s.fate && t.finishCalls == s.finishCalls
    && t.runs == s.runs && t.starts == s.starts
  }

  /** The lists do not depend on the counters or on the shutdown flags. */
  lemma ListsOnly(s: State, t: State)
    requires Lists(s) && SameLists(s, t)
    ensures Lists(t)
  {
    forall l, i | 0 <= l < |t.arena| && 0 <= i < |t.arena[l].jobs| ensures Resides(t, l, t.arena[l].jobs[i]) {
      assert Resides(s, l, s.arena[l].jobs[i]);
    }
  }

  // ---- removing a pending job -------------------------------------------------

  function Left(lane: Lane, j: Job): Lane {
    lane.(jobs := Remove(lane.jobs, j), ready := lane.ready && Remove(lane.jobs, j) != [])
  }

  /** `t` is `s` without the waiting job `j`: its lane leaves the ready list and the
      lane table exactly when it has become idle. */
  ghost predicate Dequeued(s: State, t: State, j: Job)
    requires InLane(s, j)
  {
    var lane := s.arena[j.lane];
    var left := Left(lane, j);
    && t.arena == s.arena[j.lane := left]
    && t.ready == (if left.jobs == [] && lane.ready then Remove(s.ready, j.lane) else s.ready)
    && t.lanes == (if left.jobs == [] && lane.key != NoKey && lane.active == 0 then s.lanes - {lane.key} else s.lanes)
  }

  lemma RemovePendingForm(s: State, j: Job)
    requires ReadyList(s) && InLane(s, j)
    ensures var t := RemovePending(s, j);
            Dequeued(s, t, j) && t == s.(pending := s.pending - 1, arena := t.arena, ready := t.ready, lanes := t.lanes)
  {
  }

  lemma DequeuedLanes(s: State, t: State, j: Job)
    requires InLane(s, j) && Dequeued(s, t, j)
    requires LaneTable(s) && ReadyList(s)
    ensures LaneTable(t)
  {
    hide Remove;
  }

  lemma DequeuedReady(s: State, t: State, j: Job)
    requires InLane(s, j) && Dequeued(s, t, j)
    requires ReadyList(s)
    ensures ReadyList(t)
  {
    RemoveDistinct(s.ready, j.lane);
    forall i | 0 <= i < |t.ready| ensures t.ready[i] < |t.arena| { assert t.ready[i] in s.ready; }
  }

  lemma DequeuedQueued(s: State, t: State, j: Job, f: Fate)
    requires InLane(s, j) && Dequeued(s, t, j) && Queued(s) && j.id < |s.fate|
    requires t.admitted == s.admitted && t.finishCalls == s.finishCalls && t.runs == s.runs
    requires f != Waiting && t.fate == s.fate[j.id := f]
    ensures Queued(t)
  {
    var jobs := s.arena[j.lane].jobs;
    RemoveAscending(jobs, j);
    assert Resides(s, j.lane, j);
    forall l, i | 0 <= l < |t.arena| && 0 <= i < |t.arena[l].jobs| ensures Resides(t, l, t.arena[l].jobs[i]) {
      var x := t.arena[l].jobs[i];
      assert x in s.arena[l].jobs && Resides(s, l, x);
      if l == j.lane { assert x != j; }
    }
  }

  lemma DequeuedRunnable(s: State, t: State, j: Job)
    requires InLane(s, j) && Dequeued(s, t, j) && ReadyList(s) && ReadyList(t)
    ensures Runnable(t.ready, t.arena) <= Runnable(s.ready, s.arena)
  {
    var l := j.lane;
    RunnableUpdate(s.ready, s.arena, l, t.arena[l]);
    if t.ready != s.ready { RunnableRemove(s.ready, t.arena, l); }
  }

  lemma WaitingIn(s: State, j: Job)
    requires Queued(s) && InLane(s, j)
    ensures Resides(s, j.lane, j) && IsWaiting(s, j)
  {
  }

  // ---- claiming -----------------------------------------------------------------

  lemma ClaimCallsOk(calls: seq<Call>, admitted: seq<Job>, fate: seq<Fate>, c: nat, j: Job)
    requires CallsOk(calls, admitted, fate) && c < |calls| && calls[c].open
    requires j.id < |admitted| && admitted[j.id] == j && fate[j.id] == Waiting
    ensures CallsOk(calls[c := calls[c].(jobs := calls[c].jobs + [j])], admitted,
            fate[j.id := Claimed(c, |calls[c].jobs|)])
  {
  }

  lemma ClaimCalls(s: State, c: nat, j: Job)
    requires InLane(s, j) && IsWaiting(s, j) && c < |s.calls| && s.calls[c].open && Calls(s)
    ensures Calls(Claim(s, c, j))
  {
    ClaimCallsOk(s.calls, s.admitted, s.fate, c, j);
  }

  ghost predicate IsWaiting(s: State, j: Job) {
    |s.fate| == |s.admitted| && j.id < |s.admitted| && s.admitted[j.id] == j && s.fate[j.id] == Waiting
  }

  lemma ClaimCounters(s: State, c: nat, j: Job)
    requires InLane(s, j) && j.id < |s.fate| && c < |s.calls| && s.calls[c].open && ReadyList(s) && Counters(s)
    ensures Counters(Claim(s, c, j)) && s.pending > 0
  {
    RemovePendingForm(s, j);
    var t := Claim(s, c, j);
    LaneLengthsUpdate(s.arena, j.lane, t.arena[j.lane]);
    OpenJobsUpdate(s.calls, c, t.calls[c]);
  }

  lemma ClaimActive(s: State, c: nat, j: Job)
    requires InLane(s, j) && IsWaiting(s, j) && c < |s.calls| && ReadyList(s) && ActiveJobs(s)
    ensures ActiveJobs(Claim(s, c, j))
  {
    RemovePendingForm(s, j);
  }

  lemma ClaimHistory(s: State, c: nat, j: Job)
    requires InLane(s, j) && IsWaiting(s, j) && c < |s.calls| && ReadyList(s) && Deliveries(s) && StartOrder(s)
    ensures Deliveries(Claim(s, c, j)) && StartOrder(Claim(s, c, j))
  {
    RemovePendingForm(s, j);
  }

  lemma ClaimLanes(s: State, c: nat, j: Job)
    requires LaneTable(s) && ReadyList(s) && Queued(s) && Conserved(s)
    requires InLane(s, j) && IsWaiting(s, j) && c < |s.calls|
    ensures var t := Claim(s, c, j); LaneTable(t) && ReadyList(t) && Queued(t) && Conserved(t)
  {
    var t := Claim(s, c, j);
    RemovePendingForm(s, j);
    DequeuedLanes(s, t, j);
    DequeuedReady(s, t, j);
    DequeuedQueued(s, t, j, Claimed(c, |s.calls[c].jobs|));
    DequeuedRunnable(s, t, j);
  }

  lemma ClaimKeepsCore(s: State, c: nat, j: Job)
    requires Core(s) && InLane(s, j) && c < |s.calls| && s.calls[c].open
    ensures j.id < |s.fate| && Core(Claim(s, c, j))
    ensures Claim(s, c, j).calls[c].open && |Claim(s, c, j).calls| == |s.calls|
  {
    WaitingIn(s, j);
    ClaimLanes(s, c, j);
    ClaimActive(s, c, j);
    ClaimCalls(s, c, j);
    ClaimCounters(s, c, j);
    ClaimHistory(s, c, j);
  }

  lemma OpenCallKeepsCore(s: State, closed: bool)
    requires Core(s) && (s.closed ==> closed)
    ensures var t := OpenCall(s.(closed := closed)); Core(t) && t.calls[|s.calls|].open
  {
    var t := OpenCall(s.(closed := closed));
    assert t.calls[..|s.calls|] == s.calls;
  }

  lemma CancelKeepsInv(s: State, j: Job)
    requires Inv(s) && InLane(s, j) && j.id < |s.fate|
    ensures Inv(CancelClaim(s, j))
  {
    OpenCallKeepsCore(s, s.closed);
    var o := OpenCall(s);
    assert InLane(o, j);
    ClaimKeepsCore(o, |s.calls|, j);
    ClaimCounters(o, |s.calls|, j);
    WaitingIn(o, j);
    ClaimNotDrained(o, |s.calls|, j);
  }

  lemma ClaimNotDrained(s: State, c: nat, j: Job)
    requires Counters(s) && InLane(s, j) && j.id < |s.fate| && c < |s.calls| && s.calls[c].open && ReadyList(s)
    ensures Claim(s, c, j).finishing > 0
  {
    RemovePendingForm(s, j);
  }

  lemma {:induction false} ClaimAllKeepsCore(s: State, c: nat, js: seq<Job>)
    requires Core(s) && c < |s.calls| && s.calls[c].open
    ensures var t := ClaimAll(s, c, js); Core(t) && |t.calls| == |s.calls| && t.calls[c].open
    decreases |js|
  {
    if js != [] {
      var t := ClaimAll(s, c, js[..|js| - 1]);
      ClaimAllKeepsCore(s, c, js[..|js| - 1]);
      if InLane(t, js[|js| - 1]) { ClaimKeepsCore(t, c, js[|js| - 1]); }
    }
  }

  lemma CloseAfter(s: State, t: State)
    requires Core(s) && t == FinishClosed(s)
    ensures Inv(t)
  {
    ListsOnly(s, t);
  }

  lemma StopKeepsInv(s: State, all: bool, removed: seq<Job>)
    requires Inv(s) && CanStop(s, all, removed)
    ensures Inv(Stop(s, all, removed))
  {
    var o := OpenCall(s.(closed := true));
    OpenCallKeepsCore(s, true);
    ClaimAllKeepsCore(o, |s.calls|, removed);
    CloseAfter(ClaimAll(o, |s.calls|, removed), Stop(s, all, removed));
  }

  // ---- delivering to claimed jobs ---------------------------------------------

  lemma DropCalls(s: State, c: nat)
    requires CanDrop(s, c) && Calls(s) && Queued(s) && OpenJobs(s.calls) == s.finishing
    ensures Calls(Drop(s, c)) && OpenJobs(Drop(s, c).calls) == s.finishing
  {
    OpenJobsUpdate(s.calls, c, Drop(s, c).calls[c]);
  }

  lemma DropQueued(s: State, c: nat)
    requires CanDrop(s, c) && Calls(s) && Queued(s) && ActiveJobs(s)
    ensures Queued(Drop(s, c)) && ActiveJobs(Drop(s, c))
  {
    var t := Drop(s, c);
    forall l, i | 0 <= l < |t.arena| && 0 <= i < |t.arena[l].jobs| ensures Resides(t, l, t.arena[l].jobs[i]) {
      assert Resides(s, l, s.arena[l].jobs[i]);
    }
  }

  lemma DropHistory(s: State, c: nat)
    requires CanDrop(s, c) && Calls(s) && Deliveries(s) && StartOrder(s)
    ensures Deliveries(Drop(s, c)) && StartOrder(Drop(s, c))
  {
  }

  lemma DropKeepsCore(s: State, c: nat)
    requires Core(s) && CanDrop(s, c)
    ensures Core(Drop(s, c))
  {
    DropCalls(s, c);
    DropQueued(s, c);
    DropHistory(s, c);
  }

  /** Steps that leave the counters and flags alone. */
  lemma CountersUntouched(s: State, t: State)
    requires (s.done <==> Drained(s)) && Core(t)
    requires t.done == s.done && t.closed == s.closed && t.workers == s.workers && t.pending == s.pending
             && t.finishing == s.finishing
    ensures Inv(t)
  {
  }

  lemma DropKeepsInv(s: State, c: nat)
    requires Inv(s) && CanDrop(s, c)
    ensures Inv(Drop(s, c))
  {
    DropKeepsCore(s, c);
    CountersUntouched(s, Drop(s, c));
  }

  lemma EndCallCalls(s: State, t: State, c: nat)
    requires CanEndCall(s, c) && Calls(s) && Counters(s)
    requires t == s.(finishing := s.finishing - |s.calls[c].jobs|, calls := s.calls[c := s.calls[c].(open := false)])
    ensures Calls(t) && Counters(t)
  {
    OpenJobsUpdate(s.calls, c, t.calls[c]);
    OpenJobsAtLeast(s.calls, c);
  }

  lemma EndCallKeepsCore(s: State, t: State, c: nat)
    requires Core(s) && CanEndCall(s, c)
    requires t == s.(finishing := s.finishing - |s.calls[c].jobs|, calls := s.calls[c := s.calls[c].(open := false)])
    ensures Core(t)
  {
    EndCallCalls(s, t, c);
    OpenJobsAtLeast(s.calls, c);
    ListsOnly(s, t);
  }

  lemma EndCallKeepsInv(s: State, c: nat)
    requires Core(s) && CanEndCall(s, c)
    ensures Inv(EndCall(s, c))
  {
    var t := s.(finishing := s.finishing - |s.calls[c].jobs|, calls := s.calls[c := s.calls[c].(open := false)]);
    EndCallKeepsCore(s, t, c);
    CloseAfter(t, EndCall(s, c));
  }

  // ---- workers --------------------------------------------------------------------

  lemma RetireConserves(s: State)
    requires CanRetire(s) && Counters(s)
    ensures var t := s.(workers := s.workers - 1); Counters(t) && Conserved(t)
  {
  }

  lemma RetireKeepsCore(s: State)
    requires Core(s) && CanRetire(s)
    ensures Core(s.(workers := s.workers - 1))
  {
    ListsOnly(s, s.(workers := s.workers - 1));
    RetireConserves(s);
  }

  lemma RetireKeepsInv(s: State)
    requires Core(s) && CanRetire(s)
    ensures Inv(Retire(s))
  {
    RetireKeepsCore(s);
    CloseAfter(s.(workers := s.workers - 1), Retire(s));
  }

  /** A call outside the lock has moved the fate of an active job and nothing else but the
      counts of calls. */
  ghost predicate Called(s: State, t: State, j: Job, f: Fate) {
    && j in s.active && j.id < |s.fate| && f in {Running, Reported}
    && t == s.(fate := s.fate[j.id := f], finishCalls := t.finishCalls, runs := t.runs)
  }

  lemma CalledQueued(s: State, t: State, j: Job, f: Fate)
    requires Called(s, t, j, f) && Queued(s) && ActiveJobs(s) && Calls(s)
    ensures Queued(t) && ActiveJobs(t) && Calls(t)
  {
    forall l, i | 0 <= l < |t.arena| && 0 <= i < |t.arena[l].jobs| ensures Resides(t, l, t.arena[l].jobs[i]) {
      assert Resides(s, l, s.arena[l].jobs[i]);
    }
  }

  lemma CalledOrder(s: State, t: State, j: Job, f: Fate)
    requires Called(s, t, j, f) && StartOrder(s)
    ensures StartOrder(t)
  {
  }

  lemma CalledKeepsInv(s: State, t: State, j: Job, f: Fate)
    requires Inv(s) && Called(s, t, j, f) && Deliveries(t)
    ensures Inv(t)
  {
    CalledQueued(s, t, j, f);
    CalledOrder(s, t, j, f);
    CountersUntouched(s, t);
  }

  lemma BeginDeliveries(s: State, j: Job, live: bool)
    requires CanBegin(s, j) && Deliveries(s)
    ensures Deliveries(Begin(s, j, live))
  {
  }

  lemma BeginKeepsInv(s: State, j: Job, live: bool)
    requires Inv(s) && CanBegin(s, j)
    ensures Inv(Begin(s, j, live))
  {
    BeginDeliveries(s, j, live);
    CalledKeepsInv(s, Begin(s, j, live), j, Running);
  }

  lemma ReportDeliveries(s: State, j: Job)
    requires CanReport(s, j) && Deliveries(s)
    ensures Deliveries(Report(s, j))
  {
  }

  lemma ReportKeepsInv(s: State, j: Job)
    requires Inv(s) && CanReport(s, j)
    ensures Inv(Report(s, j))
  {
    ReportDeliveries(s, j);
    CalledKeepsInv(s, Report(s, j), j, Reported);
  }

  // ---- finishing a job -----------------------------------------------------------

  /** The lane after its job is done: the counter drops, and the lane is ready again,
      or gone from the table, exactly when that made it takeable, or idle. */
  function Released(lane: Lane): Lane {
    var idle := lane.(active := lane.active - 1);
    idle.(ready := Takeable(idle))
  }

  ghost predicate Freed(s: State, t: State, j: Job)
    requires j.lane < |s.arena|
  {
    var lane := s.arena[j.lane];
    && t.arena == s.arena[j.lane := Released(lane)]
    && t.ready == (if Takeable(Released(lane)) && !lane.ready then s.ready + [j.lane] else s.ready)
    && t.lanes == (if lane.key != NoKey && lane.jobs == [] then s.lanes - {lane.key} else s.lanes)
  }

  lemma CompleteForm(s: State, j: Job)
    requires CanComplete(s, j) && ReadyList(s) && 0 < s.arena[j.lane].active
    requires s.arena[j.lane].key != NoKey ==> s.arena[j.lane].active <= 1
    ensures var t := Complete(s, j);
            && Freed(s, t, j)
            && t == s.(active := s.active - {j}, fate := s.fate[j.id := Completed],
                       arena := t.arena, ready := t.ready, lanes := t.lanes)
  {
  }

  lemma ActiveOnRemove(active: set<Job>, j: Job, l: nat)
    requires j in active
    ensures |ActiveOn(active - {j}, l)| == |ActiveOn(active, l)| - (if j.lane == l then 1 else 0)
  {
    if j.lane == l {
      assert ActiveOn(active - {j}, l) == ActiveOn(active, l) - {j};
    } else {
      assert ActiveOn(active - {j}, l) == ActiveOn(active, l);
    }
  }

  lemma ActiveLane(s: State, j: Job)
    requires ActiveJobs(s) && LaneTable(s) && j in s.active
    ensures j.lane < |s.arena| && 0 < s.arena[j.lane].active
    ensures s.arena[j.lane].key != NoKey ==> s.arena[j.lane].active == 1
  {
    assert j in ActiveOn(s.active, j.lane);
  }

  lemma FreedActive(s: State, t: State, j: Job)
    requires Queued(s) && ActiveJobs(s) && j in s.active && Freed(s, t, j)
    requires t.active == s.active - {j} && t.fate == s.fate[j.id := Completed] && t.admitted == s.admitted
    ensures ActiveJobs(t)
  {
    forall l | 0 <= l < |t.arena| ensures t.arena[l].active == |ActiveOn(t.active, l)| {
      ActiveOnRemove(s.active, j, l);
    }
  }

  lemma FreedLanes(s: State, t: State, j: Job)
    requires j.lane < |s.arena| && LaneTable(s) && 0 < s.arena[j.lane].active && Freed(s, t, j)
    ensures LaneTable(t)
  {
  }

  lemma FreedReady(s: State, t: State, j: Job)
    requires j.lane < |s.arena| && LaneTable(s) && ReadyList(s) && 0 < s.arena[j.lane].active && Freed(s, t, j)
    ensures ReadyList(t)
  {
    forall l | 0 <= l < |t.arena| ensures l in t.ready <==> Takeable(t.arena[l]) {
      if l != j.lane { assert l in t.ready <==> l in s.ready; }
    }
  }

  lemma CompleteQueued(s: State, j: Job)
    requires CanComplete(s, j) && LaneTable(s) && ReadyList(s) && Queued(s) && 0 < s.arena[j.lane].active
    ensures Queued(Complete(s, j))
  {
    CompleteForm(s, j);
    var t := Complete(s, j);
    forall l, i | 0 <= l < |t.arena| && 0 <= i < |t.arena[l].jobs| ensures Resides(t, l, t.arena[l].jobs[i]) {
      assert Resides(s, l, s.arena[l].jobs[i]);
    }
  }

  lemma CompleteHistory(s: State, j: Job)
    requires CanComplete(s, j) && LaneTable(s) && ReadyList(s) && 0 < s.arena[j.lane].active
    requires Calls(s) && Deliveries(s) && StartOrder(s)
    ensures var t := Complete(s, j); Calls(t) && Deliveries(t) && StartOrder(t)
  {
    CompleteForm(s, j);
  }

  lemma CompleteCounters(s: State, j: Job)
    requires CanComplete(s, j) && LaneTable(s) && ReadyList(s) && 0 < s.arena[j.lane].active
    requires Counters(s) && Conserved(s) && ReadyList(Complete(s, j))
    ensures Counters(Complete(s, j)) && Conserved(Complete(s, j))
  {
    CompleteForm(s, j);
    var t := Complete(s, j);
    var l := j.lane;
    LaneLengthsUpdate(s.arena, l, t.arena[l]);
    RunnableUpdate(s.ready, s.arena, l, t.arena[l]);
    if t.ready != s.ready { RunnableAppend(s.ready, t.arena, l); }
    assert |t.active| == |s.active| - 1;
  }

  lemma CompleteLanes(s: State, j: Job)
    requires CanComplete(s, j) && LaneTable(s) && ReadyList(s) && Queued(s) && ActiveJobs(s)
    ensures var t := Complete(s, j); LaneTable(t) && ReadyList(t) && ActiveJobs(t) && t.workers == s.workers
  {
    var t := Complete(s, j);
    ActiveLane(s, j);
    CompleteForm(s, j);
    FreedLanes(s, t, j);
    FreedReady(s, t, j);
    FreedActive(s, t, j);
  }

  lemma CompleteKeepsCore(s: State, j: Job)
    requires Core(s) && CanComplete(s, j)
    ensures Core(Complete(s, j)) && Complete(s, j).workers > 0
  {
    ActiveLane(s, j);
    CompleteLanes(s, j);
    CompleteQueued(s, j);
    CompleteHistory(s, j);
    CompleteCounters(s, j);
  }

  lemma CoreWithWorkers(s: State)
    requires Core(s) && s.workers > 0
    ensures Inv(s)
  {
  }

  // ---- starting a job --------------------------------------------------------------

  /** The lane at the front of the ready list after a worker took its first job. */
  function Taken(lane: Lane): Lane
    requires lane.jobs != []
  {
    var busy := lane.(jobs := lane.jobs[1..], active := lane.active + 1);
    busy.(ready := Takeable(busy))
  }

  ghost predicate Started(s: State, t: State)
    requires s.ready != [] && s.ready[0] < |s.arena| && s.arena[s.ready[0]].jobs != []
  {
    var l := s.ready[0];
    && t.arena == s.arena[l := Taken(s.arena[l])]
    && t.ready == s.ready[1..] + (if Takeable(Taken(s.arena[l])) then [l] else [])
    && t.lanes == s.lanes
  }

  lemma PickForm(s: State)
    requires WellIndexed(s) && s.ready != [] && ReadyList(s) && LaneTable(s)
    ensures var t := Pick(s);
            var j := s.arena[s.ready[0]].jobs[0];
            && Started(s, t)
            && t == s.(pending := s.pending - 1, active := s.active + {j}, fate := s.fate[j.id := Picked],
                       starts := s.starts + [j], arena := t.arena, ready := t.ready)
  {
    assert s.ready[0] in s.ready;
  }

  lemma StartedLanes(s: State, t: State)
    requires WellIndexed(s) && s.ready != [] && ReadyList(s) && LaneTable(s) && Started(s, t)
    ensures LaneTable(t)
  {
    assert s.ready[0] in s.ready;
  }

  lemma StartedReady(s: State, t: State)
    requires WellIndexed(s) && s.ready != [] && ReadyList(s) && Started(s, t)
    ensures ReadyList(t)
  {
    var l := s.ready[0];
    assert l !in s.ready[1..];
    forall k | 0 <= k < |t.arena| ensures k in t.ready <==> Takeable(t.arena[k]) {
      if k != l { assert k in s.ready <==> k in s.ready[1..]; }
    }
  }

  lemma PickLanes(s: State)
    requires WellIndexed(s) && s.ready != [] && ReadyList(s) && LaneTable(s)
    ensures LaneTable(Pick(s)) && ReadyList(Pick(s))
  {
    var t := Pick(s);
    PickForm(s);
    StartedLanes(s, t);
    StartedReady(s, t);
  }

  lemma PickQueued(s: State)
    requires WellIndexed(s) && s.ready != [] && ReadyList(s) && LaneTable(s) && Queued(s)
    ensures Queued(Pick(s))
  {
    PickForm(s);
    var t := Pick(s);
    var l := s.ready[0];
    var j := s.arena[l].jobs[0];
    assert Resides(s, l, j);
    forall k, i | 0 <= k < |t.arena| && 0 <= i < |t.arena[k].jobs| ensures Resides(t, k, t.arena[k].jobs[i]) {
      if k == l {
        assert Resides(s, l, s.arena[l].jobs[i + 1]);
      } else {
        assert Resides(s, k, s.arena[k].jobs[i]);
      }
    }
    forall i | 0 <= i < |t.admitted| && t.fate[i] == Waiting ensures InLane(t, t.admitted[i]) {
      var x := s.admitted[i];
      assert InLane(s, x) && x != j;
      if x.lane == l { assert x in s.arena[l].jobs[1..]; }
    }
  }

  lemma ActiveOnAdd(active: set<Job>, j: Job, l: nat)
    requires j !in active
    ensures |ActiveOn(active + {j}, l)| == |ActiveOn(active, l)| + (if j.lane == l then 1 else 0)
  {
    if j.lane == l {
      assert ActiveOn(active + {j}, l) == ActiveOn(active, l) + {j};
    } else {
      assert ActiveOn(active + {j}, l) == ActiveOn(active, l);
    }
  }

  lemma PickActive(s: State)
    requires WellIndexed(s) && s.ready != [] && ReadyList(s) && LaneTable(s) && Queued(s) && ActiveJobs(s)
    ensures ActiveJobs(Pick(s)) && |Pick(s).active| == |s.active| + 1
  {
    hide Pick, LaneTable;
    PickForm(s);
    var t := Pick(s);
    var j := s.arena[s.ready[0]].jobs[0];
    assert Resides(s, s.ready[0], j);
    assert j !in s.active;
    forall l | 0 <= l < |t.arena| ensures t.arena[l].active == |ActiveOn(t.active, l)| {
      ActiveOnAdd(s.active, j, l);
    }
  }

  lemma PickHistory(s: State)
    requires WellIndexed(s) && s.ready != [] && ReadyList(s) && LaneTable(s)
    requires IsWaiting(s, s.arena[s.ready[0]].jobs[0]) && Calls(s) && Deliveries(s)
    ensures Calls(Pick(s)) && Deliveries(Pick(s))
  {
    PickForm(s);
  }

  /** The front job of a lane is the oldest waiting job of its key. */
  lemma FrontIsOldest(s: State, l: nat, i: nat)
    requires LaneTable(s) && Queued(s) && l < |s.arena| && s.arena[l].jobs != []
    requires i < |s.admitted| && s.fate[i] == Waiting && s.admitted[i].key == s.arena[l].key
    ensures s.arena[l].jobs[0].id <= i
  {
    var x := s.admitted[i];
    assert InLane(s, x);
    var k :| 0 <= k < |s.arena[x.lane].jobs| && s.arena[x.lane].jobs[k] == x;
    assert Resides(s, x.lane, s.arena[x.lane].jobs[k]);
    assert x.lane == l;
  }

  lemma StartNext(starts: seq<Job>, admitted: seq<Job>, fate: seq<Fate>, j: Job)
    requires StartsOk(starts, admitted, fate)
    requires j.id < |admitted| && admitted[j.id] == j && fate[j.id] == Waiting
    requires forall i :: 0 <= i < |admitted| && fate[i] == Waiting && admitted[i].key == j.key ==> j.id <= i
    ensures StartsOk(starts + [j], admitted, fate[j.id := Picked])
  {
  }

  lemma PickOrder(s: State)
    requires WellIndexed(s) && s.ready != [] && ReadyList(s) && LaneTable(s) && Queued(s) && StartOrder(s)
    ensures StartOrder(Pick(s))
  {
    PickForm(s);
    var l := s.ready[0];
    var j := s.arena[l].jobs[0];
    WaitingIn(s, j);
    forall i | 0 <= i < |s.admitted| && s.fate[i] == Waiting && s.admitted[i].key == j.key ensures j.id <= i {
      FrontIsOldest(s, l, i);
    }
    StartNext(s.starts, s.admitted, s.fate, j);
  }

  lemma PickCounters(s: State)
    requires WellIndexed(s) && CanPick(s) && ReadyList(s) && LaneTable(s) && Counters(s) && Conserved(s)
    requires ReadyList(Pick(s)) && |Pick(s).active| == |s.active| + 1
    ensures Counters(Pick(s)) && Conserved(Pick(s))
  {
    PickForm(s);
    var t := Pick(s);
    var l := s.ready[0];
    LaneLengthsUpdate(s.arena, l, t.arena[l]);
    assert Distinct(s.ready[1..]) && l !in s.ready[1..];
    RunnableUpdate(s.ready[1..], s.arena, l, t.arena[l]);
    if Takeable(t.arena[l]) {
      RunnableAppend(s.ready[1..], t.arena, l);
    } else {
      assert t.ready == s.ready[1..];
    }
  }

  lemma PickKeepsCore(s: State)
    requires Core(s) && WellIndexed(s) && CanPick(s)
    ensures Core(Pick(s)) && Pick(s).workers > 0
  {
    WaitingIn(s, s.arena[s.ready[0]].jobs[0]);
    PickLanes(s);
    PickQueued(s);
    PickActive(s);
    PickHistory(s);
    PickOrder(s);
    PickCounters(s);
    PickForm(s);
  }

  // ---- admitting a job ---------------------------------------------------------------

  function Joined(lane: Lane, j: Job): Lane {
    var longer := lane.(jobs := lane.jobs + [j]);
    longer.(ready := Takeable(longer))
  }

  /** `t` is `s` with the new job `j` at the back of its lane, made ready if it can be. */
  ghost predicate Joins(s: State, t: State, j: Job) {
    var (b, l) := LaneFor(s, j.key);
    && l < |b.arena| && j.lane == l
    && t.arena == b.arena[l := Joined(b.arena[l], j)]
    && t.ready == (if Takeable(Joined(b.arena[l], j)) && !b.arena[l].ready then s.ready + [l] else s.ready)
    && t.lanes == b.lanes
  }

  /** Submit before startWorkers. */
  function Queue(s: State, key: Key, policy: ShutdownPolicy): State
    requires forall k <- s.lanes :: s.lanes[k] < |s.arena|
  {
    MakeReady(Enqueue(s, key, policy), LaneFor(s, key).1)
  }

  lemma JoinForm(b: State, key: Key, l: nat, policy: ShutdownPolicy)
    requires l < |b.arena| && b.arena[l].ready == Takeable(b.arena[l])
    ensures var j, t := Job(|b.admitted|, key, l, policy), MakeReady(Join(b, key, l, policy), l);
            && t.arena == b.arena[l := Joined(b.arena[l], j)]
            && t.ready == (if Takeable(Joined(b.arena[l], j)) && !b.arena[l].ready then b.ready + [l] else b.ready)
            && t == b.(pending := b.pending + 1, arena := t.arena, ready := t.ready, admitted := b.admitted + [j],
                       fate := b.fate + [Waiting], finishCalls := b.finishCalls + [0], runs := b.runs + [0])
  {
  }

  lemma LaneForReady(s: State, key: Key)
    requires LaneTable(s) && ReadyList(s)
    ensures var (b, l) := LaneFor(s, key); l < |b.arena| && b.arena[l].ready == Takeable(b.arena[l])
  {
  }

  lemma QueueForm(s: State, key: Key, policy: ShutdownPolicy)
    requires LaneTable(s) && ReadyList(s)
    ensures var t := Queue(s, key, policy);
            var j := Job(|s.admitted|, key, LaneFor(s, key).1, policy);
            && Joins(s, t, j)
            && t == s.(pending := s.pending + 1, arena := t.arena, ready := t.ready, lanes := t.lanes,
                       admitted := s.admitted + [j], fate := s.fate + [Waiting],
                       finishCalls := s.finishCalls + [0], runs := s.runs + [0])
  {
    hide MakeReady, Join, LaneTable, Joined, Takeable;
    LaneForReady(s, key);
    var (b, l) := LaneFor(s, key);
    JoinForm(b, key, l, policy);
  }

  lemma JoinsLanes(s: State, t: State, j: Job)
    requires LaneTable(s) && Joins(s, t, j)
    ensures LaneTable(t)
  {
    if j.key in s.lanes {
      assert |t.arena| == |s.arena|;
    } else {
      assert t.arena == s.arena + [Joined(Lane(j.key, [], false, 0), j)];
      assert forall l :: 0 <= l < |s.arena| ==> t.arena[l] == s.arena[l];
    }
  }

  lemma JoinsReady(s: State, t: State, j: Job)
    requires LaneTable(s) && ReadyList(s) && Joins(s, t, j)
    ensures ReadyList(t)
  {
    forall k | 0 <= k < |t.arena| ensures k in t.ready <==> Takeable(t.arena[k]) {
      if k != j.lane { assert k in t.ready <==> k in s.ready; }
    }
    assert j.lane in s.ready ==> j.lane < |s.arena|;
  }

  lemma JoinsQueued(s: State, t: State, j: Job)
    requires LaneTable(s) && Queued(s) && Joins(s, t, j) && j.id == |s.admitted|
    requires t.admitted == s.admitted + [j] && t.fate == s.fate + [Waiting]
    ensures Queued(t)
  {
    forall l, i | 0 <= l < |t.arena| && 0 <= i < |t.arena[l].jobs| ensures Resides(t, l, t.arena[l].jobs[i]) {
      if l < |s.arena| && i < |s.arena[l].jobs| {
        assert Resides(s, l, s.arena[l].jobs[i]);
      }
    }
    JoinsAscending(s, t, j);
    forall i | 0 <= i < |t.admitted| && t.fate[i] == Waiting ensures InLane(t, t.admitted[i]) {
      if i < |s.admitted| {
        assert InLane(s, s.admitted[i]);
      } else {
        assert t.arena[j.lane].jobs[|t.arena[j.lane].jobs| - 1] == j;
      }
    }
  }

  lemma JoinsAscending(s: State, t: State, j: Job)
    requires LaneTable(s) && Queued(s) && Joins(s, t, j) && j.id == |s.admitted|
    ensures forall l :: 0 <= l < |t.arena| ==> Ascending(t.arena[l].jobs)
  {
    forall l | 0 <= l < |t.arena| ensures Ascending(t.arena[l].jobs) {
      if l == j.lane && l < |s.arena| {
        assert forall i :: 0 <= i < |s.arena[l].jobs| ==> Resides(s, l, s.arena[l].jobs[i]);
      }
    }
  }

  lemma JoinsActive(s: State, t: State, j: Job)
    requires LaneTable(s) && ActiveJobs(s) && Joins(s, t, j) && j.id == |s.admitted|
    requires t.admitted == s.admitted + [j] && t.fate == s.fate + [Waiting] && t.active == s.active
    ensures ActiveJobs(t)
  {
    if |t.arena| > |s.arena| {
      assert ActiveOn(s.active, |s.arena|) == {};
    }
  }

  lemma JoinsHistory(s: State, t: State, j: Job)
    requires Queued(s) && Calls(s) && Deliveries(s) && StartOrder(s) && j.id == |s.admitted|
    requires t.admitted == s.admitted + [j] && t.fate == s.fate + [Waiting] && t.calls == s.calls
    requires t.finishCalls == s.finishCalls + [0] && t.runs == s.runs + [0] && t.starts == s.starts
    ensures Calls(t) && Deliveries(t) && StartOrder(t)
  {
  }

  lemma JoinsLengths(s: State, t: State, j: Job)
    requires Joins(s, t, j)
    ensures LaneLengths(t.arena) == LaneLengths(s.arena) + 1
  {
    var (b, l) := LaneFor(s, j.key);
    if |b.arena| > |s.arena| { assert b.arena[..|s.arena|] == s.arena; }
    LaneLengthsUpdate(b.arena, l, t.arena[l]);
  }

  lemma StartWorkersConserves(s: State)
    requires forall i :: 0 <= i < |s.ready| ==> s.ready[i] < |s.arena|
    requires |s.active| <= s.workers <= s.concurrency
    ensures var t := StartWorkers(s);
            && t == s.(workers := t.workers)
            && s.workers <= t.workers <= s.concurrency && Conserved(t)
  {
  }

  lemma QueueKeepsLists(s: State, key: Key, policy: ShutdownPolicy)
    requires Lists(s) && Calls(s)
    ensures var t := Queue(s, key, policy); Lists(t) && Calls(t) && LaneLengths(t.arena) == LaneLengths(s.arena) + 1
  {
    var j := Job(|s.admitted|, key, LaneFor(s, key).1, policy);
    var t := Queue(s, key, policy);
    QueueForm(s, key, policy);
    JoinsLanes(s, t, j);
    JoinsReady(s, t, j);
    JoinsQueued(s, t, j);
    JoinsActive(s, t, j);
    JoinsHistory(s, t, j);
    JoinsLengths(s, t, j);
  }

  lemma SubmitCounters(s: State, key: Key, policy: ShutdownPolicy)
    requires Lists(s) && Counters(s) && WellIndexed(s) && CanSubmit(s)
    requires var q := Queue(s, key, policy); ReadyList(q) && LaneLengths(q.arena) == LaneLengths(s.arena) + 1
    ensures var q, t := Queue(s, key, policy), Submit(s, key, policy);
            && t == q.(workers := t.workers)
            && Counters(t) && Conserved(t) && t.closed == s.closed && t.done == s.done
  {
    QueueForm(s, key, policy);
    StartWorkersConserves(Queue(s, key, policy));
  }

  lemma SubmitKeepsCore(s: State, key: Key, policy: ShutdownPolicy)
    requires Core(s) && WellIndexed(s) && CanSubmit(s)
    ensures Core(Submit(s, key, policy))
  {
    QueueKeepsLists(s, key, policy);
    SubmitCounters(s, key, policy);
    ListsOnly(Queue(s, key, policy), Submit(s, key, policy));
  }
}
