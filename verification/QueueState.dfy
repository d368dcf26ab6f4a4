/** The keyed bounded scheduler as a state machine: one step for each critical
    section of the queue's mutex, plus one for each call it makes outside it.
    Lanes live in an arena and are named by index, so that a lane that was deleted
    from the lane table and a later lane for the same key stay distinguishable. */
module QueueState {
  import opened Basics

  datatype ShutdownPolicy = CancelPending | Drain

  /** A task key: the source's nil, or some comparable value. */
  datatype Key = NoKey | Keyed(name: int)

  datatype Job = Job(id: nat, key: Key, lane: nat, shutdown: ShutdownPolicy)

  datatype Lane = Lane(key: Key, jobs: seq<Job>, ready: bool, active: int)

  /** A goroutine inside cancelPending or stop: it owns `jobs`, has called Finish on
      the first `next` of them, and is open until its closing critical section. */
  datatype Call = Call(jobs: seq<Job>, next: nat, open: bool)

  /** What has become of an admitted job: Picked by a worker, Running from the call of Run
      until that of Finish. Only history: no step reads it except to say which calls
      outside the lock are due. */
  datatype Fate = Waiting | Picked | Running | Reported | Completed | Claimed(call: nat, pos: nat) | Dropped

  datatype State = State(
    capacity: int, concurrency: int,
    closed: bool, done: bool,
    pending: int, workers: int, finishing: int,
    ready: seq<nat>,
    lanes: map<Key, nat>,
    arena: seq<Lane>,
    active: set<Job>,
    calls: seq<Call>,
    admitted: seq<Job>,
    fate: seq<Fate>,
    finishCalls: seq<nat>,
    runs: seq<nat>,
    starts: seq<Job>)

  function Initial(capacity: int, concurrency: int): State {
    State(capacity, concurrency, false, false, 0, 0, 0, [], map[], [], {}, [], [], [], [], [], [])
  }

  // ---- list.List helpers -------------------------------------------------

  function Remove<T(==)>(s: seq<T>, x: T): (r: seq<T>)
    ensures forall y :: y in s && y != x ==> y in r
    ensures forall y :: y in r ==> y in s
    ensures |r| == if x in s then |s| - 1 else |s|
  {
    if s == [] then []
    else if s[0] == x then s[1..]
    else
      assert x in s <==> x in s[1..];
      [s[0]] + Remove(s[1..], x)
  }

  // ---- building blocks of the critical sections ---------------------------

  predicate Holds(arena: seq<Lane>, j: Job) {
    j.lane < |arena| && j in arena[j.lane].jobs
  }

  /** `j` is waiting in its lane. */
  predicate InLane(s: State, j: Job) { Holds(s.arena, j) }

  function MakeReady(s: State, l: nat): State
    requires l < |s.arena|
  {
    var lane := s.arena[l];
    var enlist := lane.jobs != [] && !lane.ready && (lane.key == NoKey || lane.active == 0);
    var drop := lane.key != NoKey && lane.jobs == [] && lane.active == 0;
    s.(ready := if enlist then s.ready + [l] else s.ready,
       arena := if enlist then s.arena[l := lane.(ready := true)] else s.arena,
       lanes := if drop then s.lanes - {lane.key} else s.lanes)
  }

  function RemovePending(s: State, j: Job): State
    requires InLane(s, j)
  {
    var lane := s.arena[j.lane];
    var left := lane.(jobs := Remove(lane.jobs, j));
    var emptied := left.jobs == [] && left.ready;
    MakeReady(s.(pending := s.pending - 1,
                 ready := if emptied then Remove(s.ready, j.lane) else s.ready,
                 arena := s.arena[j.lane := if emptied then left.(ready := false) else left]), j.lane)
  }

  /** What the front lanes of the ready list can keep busy: every waiting job of the
      nil-key lane, one job of a keyed lane. */
  function Weight(lane: Lane): nat {
    if lane.key == NoKey then |lane.jobs| else 1
  }

  function Runnable(ready: seq<nat>, arena: seq<Lane>): nat
    requires forall i :: 0 <= i < |ready| ==> ready[i] < |arena|
  {
    if ready == [] then 0 else Weight(arena[ready[0]]) + Runnable(ready[1..], arena)
  }

  function StartWorkers(s: State): State
    requires forall i :: 0 <= i < |s.ready| ==> s.ready[i] < |s.arena|
  {
    if s.workers == s.concurrency then s
    else
      var n := |s.active| - s.workers + Runnable(s.ready, s.arena);
      s.(workers := s.workers + Max(0, Min(n, s.concurrency - s.workers)))
  }

  function FinishClosed(s: State): State {
    if s.closed && s.workers == 0 && s.pending == 0 && s.finishing == 0
    then s.(done := true)
    else s
  }

  // ---- the critical sections and the calls between them --------------------

  ghost predicate CanSubmit(s: State) { !s.closed && s.pending < s.capacity }

  /** The lane table lookup of Submit: the lane of a key, made on first use. */
  function LaneFor(s: State, key: Key): (State, nat) {
    if key in s.lanes then (s, s.lanes[key])
    else (s.(arena := s.arena + [Lane(key, [], false, 0)], lanes := s.lanes[key := |s.arena|]), |s.arena|)
  }

  /** A job at the back of lane `l`. */
  function Join(s: State, key: Key, l: nat, policy: ShutdownPolicy): State
    requires l < |s.arena|
  {
    var j := Job(|s.admitted|, key, l, policy);
    s.(arena := s.arena[l := s.arena[l].(jobs := s.arena[l].jobs + [j])],
       pending := s.pending + 1,
       admitted := s.admitted + [j],
       fate := s.fate + [Waiting],
       finishCalls := s.finishCalls + [0],
       runs := s.runs + [0])
  }

  /** Submit after its checks: the job joins the back of its lane. */
  function Enqueue(s: State, key: Key, policy: ShutdownPolicy): State
    requires forall k <- s.lanes :: s.lanes[k] < |s.arena|
  {
    var (t, l) := LaneFor(s, key);
    Join(t, key, l, policy)
  }

  ghost predicate WellIndexed(s: State) {
    && (forall i :: 0 <= i < |s.ready| ==> s.ready[i] < |s.arena| && s.arena[s.ready[i]].jobs != [])
    && (forall k <- s.lanes :: s.lanes[k] < |s.arena|)
    && |s.fate| == |s.finishCalls| == |s.runs| == |s.admitted|
    && (forall l, i :: 0 <= l < |s.arena| && 0 <= i < |s.arena[l].jobs| ==>
          s.arena[l].jobs[i].id < |s.admitted| && s.arena[l].jobs[i].lane == l)
  }

  function Submit(s: State, key: Key, policy: ShutdownPolicy): State
    requires WellIndexed(s)
  {
    var s1 := Enqueue(s, key, policy);
    var s2 := MakeReady(s1, LaneFor(s, key).1);
    StartWorkers(s2)
  }

  ghost predicate CanPick(s: State) { |s.active| < s.workers && s.ready != [] }

  predicate FrontReady(s: State) {
    && s.ready != [] && s.ready[0] < |s.arena|
    && var lane := s.arena[s.ready[0]];
       lane.jobs != [] && lane.jobs[0].lane == s.ready[0] && lane.jobs[0].id < |s.fate|
  }

  /** The top of the worker loop when a lane is ready. */
  function Pick(s: State): State
    requires FrontReady(s)
  {
    var l := s.ready[0];
    var lane := s.arena[l];
    var j := lane.jobs[0];
    var s1 := s.(ready := s.ready[1..], arena := s.arena[l := lane.(ready := false, active := lane.active + 1)]);
    var s2 := RemovePending(s1, j);
    s2.(active := s2.active + {j}, fate := s2.fate[j.id := Picked], starts := s2.starts + [j])
  }

  ghost predicate CanRetire(s: State) { |s.active| < s.workers && s.ready == [] }

  function Retire(s: State): State {
    FinishClosed(s.(workers := s.workers - 1))
  }

  ghost predicate CanBegin(s: State, j: Job) {
    j in s.active && |s.fate| == |s.runs| && j.id < |s.fate| && s.fate[j.id] == Picked
  }

  /** Outside the lock: runTask calls Run, unless the context is done. */
  function Begin(s: State, j: Job, live: bool): State
    requires CanBegin(s, j)
  {
    s.(fate := s.fate[j.id := Running], runs := if live then s.runs[j.id := s.runs[j.id] + 1] else s.runs)
  }

  ghost predicate CanReport(s: State, j: Job) {
    j in s.active && |s.fate| == |s.finishCalls| && j.id < |s.fate| && s.fate[j.id] == Running
  }

  /** Outside the lock: Run has returned, and Finish is called. */
  function Report(s: State, j: Job): State
    requires CanReport(s, j)
  {
    s.(fate := s.fate[j.id := Reported], finishCalls := s.finishCalls[j.id := s.finishCalls[j.id] + 1])
  }

  ghost predicate CanComplete(s: State, j: Job) {
    && j in s.active && j.id < |s.fate| && s.fate[j.id] == Reported && j.lane < |s.arena|
  }

  /** The bottom of the worker loop. */
  function Complete(s: State, j: Job): State
    requires CanComplete(s, j)
  {
    var lane := s.arena[j.lane];
    MakeReady(s.(active := s.active - {j},
                 fate := s.fate[j.id := Completed],
                 arena := s.arena[j.lane := lane.(active := lane.active - 1)]), j.lane)
  }

  /** A fresh goroutine that will claim pending jobs. */
  function OpenCall(s: State): State { s.(calls := s.calls + [Call([], 0, true)]) }

  /** One pending job is removed and becomes the last job of call `c`. */
  function Claim(s: State, c: nat, j: Job): State
    requires InLane(s, j) && c < |s.calls| && j.id < |s.fate|
  {
    var s1 := RemovePending(s, j);
    s1.(finishing := s.finishing + 1,
        calls := s.calls[c := s.calls[c].(jobs := s.calls[c].jobs + [j])],
        fate := s.fate[j.id := Claimed(c, |s.calls[c].jobs|)])
  }

  /** cancelPending up to its first unlock, for a job still in its lane. */
  function CancelClaim(s: State, j: Job): State
    requires InLane(s, j) && j.id < |s.fate|
  {
    Claim(OpenCall(s), |s.calls|, j)
  }

  /** One goroutine claims the listed jobs, in that order. */
  function ClaimAll(s: State, c: nat, js: seq<Job>): State
    decreases |js|
  {
    if js == [] then s
    else
      var t := ClaimAll(s, c, js[..|js| - 1]);
      var j := js[|js| - 1];
      if InLane(t, j) && c < |t.calls| && j.id < |t.fate| then Claim(t, c, j) else t
  }

  predicate Stoppable(all: bool, j: Job) { all || j.shutdown == CancelPending }

  /** `removed` lists, in whatever order the lane table was walked, exactly the
      pending jobs that this stop has to drop. */
  ghost predicate CanStop(s: State, all: bool, removed: seq<Job>) {
    && Distinct(removed)
    && (forall j <- removed :: InLane(s, j) && j.id < |s.fate| && Stoppable(all, j))
    && (forall j :: InLane(s, j) && Stoppable(all, j) ==> j in removed)
  }

  /** stop up to its first unlock. */
  function Stop(s: State, all: bool, removed: seq<Job>): State
    requires CanStop(s, all, removed)
  {
    FinishClosed(ClaimAll(OpenCall(s.(closed := true)), |s.calls|, removed))
  }

  ghost predicate CanDrop(s: State, c: nat) {
    && c < |s.calls| && s.calls[c].open && s.calls[c].next < |s.calls[c].jobs|
    && |s.fate| == |s.finishCalls| && s.calls[c].jobs[s.calls[c].next].id < |s.fate|
  }

  /** Outside the lock: Finish for the next job that a call owns. */
  function Drop(s: State, c: nat): State
    requires CanDrop(s, c)
  {
    var call := s.calls[c];
    var j := call.jobs[call.next];
    s.(calls := s.calls[c := call.(next := call.next + 1)],
       fate := s.fate[j.id := Dropped],
       finishCalls := s.finishCalls[j.id := s.finishCalls[j.id] + 1])
  }

  ghost predicate CanEndCall(s: State, c: nat) {
    c < |s.calls| && s.calls[c].open && s.calls[c].next == |s.calls[c].jobs|
  }

  /** The closing critical section of cancelPending and of stop. */
  function EndCall(s: State, c: nat): State
    requires CanEndCall(s, c)
  {
    FinishClosed(s.(finishing := s.finishing - |s.calls[c].jobs|, calls := s.calls[c := s.calls[c].(open := false)]))
  }

  // ---- runs --------------------------------------------------------------

  datatype Step =
    | DoSubmit(key: Key, policy: ShutdownPolicy)
    | DoPick
    | DoRetire
    | DoBegin(job: Job, live: bool)
    | DoReport(job: Job)
    | DoComplete(job: Job)
    | DoCancel(job: Job)
    | DoStop(all: bool, removed: seq<Job>)
    | DoDrop(call: nat)
    | DoEndCall(call: nat)

  ghost predicate Enabled(s: State, step: Step) {
    && WellIndexed(s)
    && match step
       case DoSubmit(_, _) => CanSubmit(s)
       case DoPick => CanPick(s)
       case DoRetire => CanRetire(s)
       case DoBegin(j, _) => CanBegin(s, j)
       case DoReport(j) => CanReport(s, j)
       case DoComplete(j) => CanComplete(s, j)
       case DoCancel(j) => InLane(s, j) && j.id < |s.fate|
       case DoStop(all, removed) => CanStop(s, all, removed)
       case DoDrop(c) => CanDrop(s, c)
       case DoEndCall(c) => CanEndCall(s, c)
  }

  ghost function Next(s: State, step: Step): State
    requires Enabled(s, step)
  {
    match step
    case DoSubmit(key, policy) => Submit(s, key, policy)
    case DoPick => Pick(s)
    case DoRetire => Retire(s)
    case DoBegin(j, live) => Begin(s, j, live)
    case DoReport(j) => Report(s, j)
    case DoComplete(j) => Complete(s, j)
    case DoCancel(j) => CancelClaim(s, j)
    case DoStop(all, removed) => Stop(s, all, removed)
    case DoDrop(c) => Drop(s, c)
    case DoEndCall(c) => EndCall(s, c)
  }

  /** `run` is a sequence of enabled steps leading from `s` to `t`. */
  ghost predicate Run(s: State, run: seq<Step>, t: State)
    decreases |run|
  {
    if run == [] then s == t
    else Enabled(s, run[0]) && Run(Next(s, run[0]), run[1..], t)
  }
}
