/** The queue object itself: each method is one critical section, written with the
    source's loops, and proved to be the step of the state machine it stands for. */
module SignalQueue {
  import opened Basics
  import opened QueueState
  import opened QueueInvariant
  import opened QueueSteps
  import opened QueueTheorems

  datatype Admission = NilTask | InvalidPolicy | ErrClosed | ContextErr | QueueFull | MustWait | AdmissionErr | Admitted

  /** The two valid values of ShutdownPolicy. */
  function PolicyOf(shutdown: nat): ShutdownPolicy { if shutdown == 0 then CancelPending else Drain }

  /** A job submitted with 0 is taken by a stop that drains, one submitted with 1 stays; a
      stop that does not drain takes both. */
  lemma PolicyDecides(s: State, key: Key, shutdown: nat, all: bool, removed: seq<Job>)
    requires Inv(s) && WellIndexed(s) && CanSubmit(s) && shutdown <= 1
    requires CanStop(Submit(s, key, PolicyOf(shutdown)), all, removed)
    ensures var t := Submit(s, key, PolicyOf(shutdown));
            && |s.admitted| < |t.admitted| && InLane(t, t.admitted[|s.admitted|])
            && (InLane(Stop(t, all, removed), t.admitted[|s.admitted|]) <==> !all && shutdown == 1)
  {
    hide Submit, Stop;
    var t := Submit(s, key, PolicyOf(shutdown));
    SubmitKeepsInv(s, key, PolicyOf(shutdown));
    StopLeavesTheRest(t, all, removed);
    SubmittedJob(s, key, PolicyOf(shutdown));
  }

  lemma SubmittedJob(s: State, key: Key, policy: ShutdownPolicy)
    requires Core(s) && WellIndexed(s) && CanSubmit(s)
    ensures var t := Submit(s, key, policy); var i := |s.admitted|;
            && i < |t.admitted| && InLane(t, t.admitted[i])
            && t.admitted[i].key == key && t.admitted[i].shutdown == policy
  {
    QueueForm(s, key, policy);
  }

  // ---- facts the loops need ---------------------------------------------------

  lemma RunnablePrefix(ready: seq<nat>, arena: seq<Lane>, i: nat)
    requires i < |ready| && forall k :: 0 <= k < |ready| ==> ready[k] < |arena|
    ensures Runnable(ready[..i + 1], arena) == Runnable(ready[..i], arena) + Weight(arena[ready[i]])
  {
    assert ready[..i + 1] == ready[..i] + [ready[i]];
    RunnableAppend(ready[..i], arena, ready[i]);
  }

  lemma {:induction false} RunnablePart(ready: seq<nat>, arena: seq<Lane>, i: nat)
    requires i <= |ready| && forall k :: 0 <= k < |ready| ==> ready[k] < |arena|
    ensures Runnable(ready[..i], arena) <= Runnable(ready, arena)
    decreases |ready| - i
  {
    if i < |ready| {
      RunnablePrefix(ready, arena, i);
      RunnablePart(ready, arena, i + 1);
    } else {
      assert ready[..i] == ready;
    }
  }

  lemma {:induction false} RemoveAt<T>(s: seq<T>, i: nat)
    requires i < |s| && Distinct(s)
    ensures Remove(s, s[i]) == s[..i] + s[i + 1..]
  {
    if i > 0 {
      assert Distinct(s[1..]);
      RemoveAt(s[1..], i - 1);
      assert s[0] != s[i] && s[1..][i - 1] == s[i];
      assert s[..i] == [s[0]] + s[1..][..i - 1];
    }
  }

  /** What the methods need to know about the lists; implied by the invariant. */
  ghost predicate Callable(s: State) {
    && WellIndexed(s)
    && (forall k :: k in s.lanes ==> s.lanes[k] < |s.arena| && s.arena[s.lanes[k]].key == k)
    && (forall l :: 0 <= l < |s.arena| && s.arena[l].jobs != [] ==>
          s.arena[l].key in s.lanes && s.lanes[s.arena[l].key] == l)
    && (forall l :: 0 <= l < |s.arena| ==> Distinct(s.arena[l].jobs))
    && s.workers <= s.concurrency
  }

  /** In a reachable state every method can be called. */
  lemma InvIsCallable(s: State)
    requires Core(s)
    ensures Callable(s)
  {
    CoreIsWellIndexed(s);
  }

  // ---- walking the lane table ----------------------------------------------------

  /** Nothing left in lane `l` for a stop to drop. */
  ghost predicate Swept(s: State, l: nat, all: bool) {
    l < |s.arena| && forall j :: j in s.arena[l].jobs ==> !Stoppable(all, j)
  }

  /** `v` is what claiming `removed` has led to, except that stop adds the claimed jobs
      to `finishing` only at the end. */
  ghost predicate Claims(v: State, o: State, c: nat, removed: seq<Job>) {
    v.(finishing := v.finishing + |removed|) == ClaimAll(o, c, removed)
  }

  lemma ClaimsMore(v: State, w: State, o: State, c: nat, removed: seq<Job>, j: Job)
    requires Claims(v, o, c, removed) && InLane(v, j) && c < |v.calls| && j.id < |v.fate|
    requires w == Claim(v, c, j).(finishing := v.finishing)
    ensures Claims(w, o, c, removed + [j])
  {
    ClaimFrame(v, c, j, v.finishing + |removed|);
    assert (removed + [j])[..|removed|] == removed;
  }

  lemma ClaimFrame(s: State, c: nat, j: Job, n: int)
    requires InLane(s, j) && c < |s.calls| && j.id < |s.fate|
    ensures InLane(s.(finishing := n), j)
    ensures Claim(s.(finishing := n), c, j) == Claim(s, c, j).(finishing := n + 1)
  {
  }

  lemma SubmitParts(s: State, key: Key, policy: ShutdownPolicy)
    requires WellIndexed(s)
    ensures var e, l := Enqueue(s, key, policy), LaneFor(s, key).1;
            && l < |e.arena| && e.workers == s.workers
            && (forall i :: 0 <= i < |MakeReady(e, l).ready| ==> MakeReady(e, l).ready[i] < |MakeReady(e, l).arena|)
            && MakeReady(e, l).workers == s.workers
            && Submit(s, key, policy) == StartWorkers(MakeReady(e, l))
  {
  }

  /** Only lane `l` and its key have changed. */
  ghost predicate Beside(s: State, t: State, l: nat) {
    && l < |s.arena| == |t.arena| && t.arena[l].key == s.arena[l].key
    && |t.fate| == |s.fate| && |t.calls| == |s.calls|
    && (forall m :: 0 <= m < |s.arena| && m != l ==> t.arena[m] == s.arena[m])
    && (forall k :: k in s.lanes && k != s.arena[l].key ==> k in t.lanes && t.lanes[k] == s.lanes[k])
  }

  lemma BesideTrans(s: State, t: State, u: State, l: nat)
    requires Beside(s, t, l) && Beside(t, u, l)
    ensures Beside(s, u, l)
  {
  }

  lemma ClaimBeside(s: State, c: nat, j: Job)
    requires InLane(s, j) && c < |s.calls| && j.id < |s.fate|
    ensures Beside(s, Claim(s, c, j), j.lane)
    ensures Claim(s, c, j).arena[j.lane].jobs == Remove(s.arena[j.lane].jobs, j)
  {
  }

  /** A stop has taken some of `jobs`, added to `before`, and left the others. */
  ghost predicate Sorted(before: seq<Job>, removed: seq<Job>, jobs: seq<Job>, left: seq<Job>, all: bool) {
    && (Distinct(before) ==> Distinct(removed)) && Distinct(left)
    && (forall j :: j in left ==> j in jobs && j !in removed)
    && (forall j :: j in removed ==> j in before || (j in jobs && Stoppable(all, j)))
    && (forall j :: j in before ==> j in removed)
    && (forall j :: j in jobs ==> j in left || j in removed)
  }

  lemma SortedStep(before: seq<Job>, removed: seq<Job>, jobs: seq<Job>, left: seq<Job>, all: bool, i: nat)
    requires Sorted(before, removed, jobs, left, all) && i < |left| && Stoppable(all, left[i])
    ensures Sorted(before, removed + [left[i]], jobs, Remove(left, left[i]), all)
    ensures Remove(left, left[i]) == left[..i] + left[i + 1..]
  {
    var j := left[i];
    RemoveAt(left, i);
    RemoveDistinct(left, j);
    SortedMembers(before, removed, jobs, left, Remove(left, j), all, j);
  }

  lemma SortedMembers(before: seq<Job>, removed: seq<Job>, jobs: seq<Job>, left: seq<Job>, rest: seq<Job>, all: bool,
                      j: Job)
    requires Sorted(before, removed, jobs, left, all) && j in left && Stoppable(all, j)
    requires Distinct(rest) && forall x :: x in rest <==> x in left && x != j
    ensures Sorted(before, removed + [j], jobs, rest, all)
  {
    var more := removed + [j];
    assert forall x :: x in more <==> x in removed || x == j;
  }

  lemma SortedNone(before: seq<Job>, jobs: seq<Job>, all: bool)
    requires Distinct(jobs) && forall j :: j in jobs ==> j !in before
    ensures Sorted(before, before, jobs, jobs, all)
  {
  }

  /** A job still in the lane is one of those the walk found there. */
  lemma StillThere(before: seq<Job>, removed: seq<Job>, jobs: seq<Job>, left: seq<Job>, all: bool, i: nat)
    requires Sorted(before, removed, jobs, left, all) && i < |left|
    ensures left[i] in jobs
  {
  }

  function Unlisted(s: State): State
    requires FrontReady(s)
  {
    var l := s.ready[0];
    s.(ready := s.ready[1..], arena := s.arena[l := s.arena[l].(ready := false, active := s.arena[l].active + 1)])
  }

  lemma PickParts(s: State, t: State, j: Job, w: State)
    requires FrontReady(s) && t == Unlisted(s) && j == s.arena[s.ready[0]].jobs[0] && InLane(t, j)
    requires var u := RemovePending(t, j);
             w == u.(active := t.active + {j}, fate := t.fate[j.id := Picked], starts := t.starts + [j])
    ensures w == Pick(s)
  {
  }

  /** The lane table has been walked except for the keys in `left`. */
  ghost predicate Walked(s: State, v: State, left: set<Key>, removed: seq<Job>, all: bool) {
    && |v.arena| == |s.arena| && |v.fate| == |s.fate| && |v.calls| == |s.calls| + 1
    && left <= v.lanes.Keys && left <= s.lanes.Keys && Distinct(removed)
    && (forall k :: k in left ==> v.lanes[k] == s.lanes[k] < |s.arena| && v.arena[s.lanes[k]] == s.arena[s.lanes[k]])
    && (forall k :: k in s.lanes && k !in left ==> Swept(v, s.lanes[k], all))
    && (forall k, x :: k in s.lanes && k !in left && s.lanes[k] < |s.arena| && x in s.arena[s.lanes[k]].jobs ==>
          x in v.arena[s.lanes[k]].jobs || x in removed)
    && (forall j :: j in removed ==>
          InLane(s, j) && j.id < |s.fate| && Stoppable(all, j) && s.arena[j.lane].key !in left)
  }

  lemma WalkStart(s: State, o: State, all: bool)
    requires Callable(s) && o == OpenCall(s.(closed := true))
    ensures Walked(s, o, o.lanes.Keys, [], all) && Claims(o, o, |s.calls|, [])
  {
  }

  lemma LaneJobs(s: State, v: State, left: set<Key>, removed: seq<Job>, all: bool, k: Key)
    requires Callable(s) && Walked(s, v, left, removed, all) && k in left
    ensures k in s.lanes && k in v.lanes && v.lanes[k] == s.lanes[k]
    ensures var l := v.lanes[k];
            && l < |v.arena| && |v.calls| == |s.calls| + 1 && Distinct(v.arena[l].jobs)
            && forall j :: j in v.arena[l].jobs ==> j.lane == l && j.id < |v.fate| && j !in removed
  {
  }

  lemma WalkedStep(s: State, v: State, w: State, left: set<Key>, before: seq<Job>, removed: seq<Job>, all: bool, k: Key)
    requires Callable(s) && Walked(s, v, left, before, all) && k in left
    requires var l := s.lanes[k];
             Beside(v, w, l) && Swept(w, l, all) && Sorted(before, removed, v.arena[l].jobs, w.arena[l].jobs, all)
    ensures Walked(s, w, left - {k}, removed, all)
  {
    var l := s.lanes[k];
    forall m | m in s.lanes && m !in left - {k} ensures Swept(w, s.lanes[m], all) {
      if m != k { assert Swept(v, s.lanes[m], all); }
    }
    forall j | j in removed
      ensures InLane(s, j) && j.id < |s.fate| && Stoppable(all, j) && s.arena[j.lane].key !in left - {k}
    {
      if j !in before { assert j in s.arena[l].jobs; }
    }
  }

  lemma WalkedAll(s: State, v: State, removed: seq<Job>, all: bool)
    requires Callable(s) && Walked(s, v, {}, removed, all)
    ensures CanStop(s, all, removed)
  {
    forall j | InLane(s, j) && Stoppable(all, j) ensures j in removed {
      var k := s.arena[j.lane].key;
      assert k in s.lanes && s.lanes[k] == j.lane && Swept(v, s.lanes[k], all);
    }
  }

  class Queue {
    const capacity: int
    const concurrency: int
    const waitForCapacity: bool
    var closed: bool
    var done: bool
    var pending: int
    var workers: int
    var finishing: int
    var ready: seq<nat>
    var lanes: map<Key, nat>
    var arena: seq<Lane>
    var active: set<Job>
    var issued: nat  // how many jobs have been made: the identity of the next one
    ghost var calls: seq<Call>
    ghost var admitted: seq<Job>
    ghost var fate: seq<Fate>
    ghost var finishCalls: seq<nat>
    ghost var runs: seq<nat>
    ghost var starts: seq<Job>

    ghost function View(): State
      reads this
    {
      State(capacity, concurrency, closed, done, pending, workers, finishing, ready, lanes, arena, active,
            calls, admitted, fate, finishCalls, runs, starts)
    }

    ghost predicate Valid()
      reads this
    {
      Callable(View()) && issued == |admitted|
    }

    constructor (capacity: int, concurrency: int, waitForCapacity: bool)
      requires 1 <= capacity && 1 <= concurrency
      ensures View() == Initial(capacity, concurrency) && Valid() && this.waitForCapacity == waitForCapacity
    {
      this.capacity, this.concurrency, this.waitForCapacity := capacity, concurrency, waitForCapacity;
      closed, done, pending, workers, finishing := false, false, 0, 0, 0;
      ready, lanes, arena, active, issued := [], map[], [], {}, 0;
      calls, admitted, fate, finishCalls, runs, starts := [], [], [], [], [], [];
    }

    /** NewQueue: negative options are an error, zero ones take the defaults. */
    static method New(capacity: int, concurrency: int, admissionTimeout: int, waitForCapacity: bool) returns (q: Queue?)
      ensures q == null <==> capacity < 0 || concurrency < 0 || admissionTimeout < 0
      ensures q != null ==> fresh(q) && q.Valid() && q.View() == Initial(
                if capacity == 0 then 256 else capacity, if concurrency == 0 then 1 else concurrency)
    {
      if capacity < 0 || concurrency < 0 || admissionTimeout < 0 { return null; }
      var c := if capacity == 0 then 256 else capacity;
      var n := if concurrency == 0 then 1 else concurrency;
      q := new Queue(c, n, waitForCapacity);
    }

    method MarkReady(l: nat)
      requires l < |arena|
      modifies this`ready, this`lanes, this`arena
      ensures View() == MakeReady(old(View()), l)
    {
      if arena[l].jobs != [] && !arena[l].ready && (arena[l].key == NoKey || arena[l].active == 0) {
        arena := arena[l := arena[l].(ready := true)];
        ready := ready + [l];
      }
      if arena[l].key != NoKey && arena[l].jobs == [] && arena[l].active == 0 {
        lanes := lanes - {arena[l].key};
      }
    }

    method LaunchWorkers()
      requires forall i :: 0 <= i < |ready| ==> ready[i] < |arena|
      requires workers <= concurrency
      modifies this`workers
      ensures View() == StartWorkers(old(View()))
    {
      if workers == concurrency { return; }
      var n := |active| - workers;
      ghost var base := n;
      var i := 0;
      while i < |ready| && n < concurrency - workers
        invariant i <= |ready|
        invariant n == base + Runnable(ready[..i], arena) && workers == old(workers)
      {
        RunnablePrefix(ready, arena, i);
        var lane := arena[ready[i]];
        if lane.key == NoKey { n := n + |lane.jobs|; } else { n := n + 1; }
        i := i + 1;
      }
      RunnablePart(ready, arena, i);
      if i == |ready| { assert ready[..i] == ready; }
      ghost var started := n;
      while workers < concurrency && n > 0
        invariant old(workers) <= workers <= concurrency
        invariant n == started - (workers - old(workers))
        invariant workers > old(workers) ==> n >= 0
      {
        workers := workers + 1;
        n := n - 1;
      }
    }

    method RemovePendingJob(j: Job)
      requires InLane(View(), j)
      modifies this`ready, this`lanes, this`arena, this`pending
      ensures View() == RemovePending(old(View()), j)
    {
      var l := j.lane;
      arena := arena[l := arena[l].(jobs := Remove(arena[l].jobs, j))];
      pending := pending - 1;
      if arena[l].jobs == [] && arena[l].ready {
        ready := Remove(ready, l);
        arena := arena[l := arena[l].(ready := false)];
      }
      MarkReady(l);
    }

    /** Submit from its call to admission, refusal or the first wait for space. */
    method TrySubmit(hasRun: bool, shutdown: nat, ctxErr: bool, key: Key) returns (r: Admission)
      requires Valid()
      modifies this
      ensures r == if !hasRun then NilTask else if shutdown > 1 then InvalidPolicy
                   else if old(closed) then ErrClosed else if ctxErr then ContextErr
                   else if old(pending) == capacity then (if waitForCapacity then MustWait else QueueFull) else Admitted
      ensures View() == if r == Admitted then Submit(old(View()), key, PolicyOf(shutdown)) else old(View())
      ensures issued == |admitted|
    {
      if !hasRun { return NilTask; }
      if shutdown != 0 && shutdown != 1 { return InvalidPolicy; }
      if closed { return ErrClosed; }
      if ctxErr { return ContextErr; }
      if pending == capacity {
        if !waitForCapacity { return QueueFull; }
        return MustWait;
      }
      Admit(key, PolicyOf(shutdown));
      r := Admitted;
    }

    /** Submit each time its wait for space is woken. */
    method ResumeSubmit(admissionErr: bool, key: Key, policy: ShutdownPolicy) returns (r: Admission)
      requires Valid()
      modifies this
      ensures r == if old(closed) then ErrClosed else if admissionErr then AdmissionErr
                   else if old(pending) == capacity then MustWait else Admitted
      ensures View() == if r == Admitted then Submit(old(View()), key, policy) else old(View())
      ensures issued == |admitted|
    {
      if pending == capacity && !closed && !admissionErr { return MustWait; }
      if closed { return ErrClosed; }
      if admissionErr { return AdmissionErr; }
      Admit(key, policy);
      r := Admitted;
    }

    method LaneOf(key: Key) returns (l: nat)
      modifies this`lanes, this`arena
      ensures (View(), l) == LaneFor(old(View()), key)
    {
      if key !in lanes {
        lanes := lanes[key := |arena|];
        arena := arena + [Lane(key, [], false, 0)];
      }
      l := lanes[key];
    }

    /** The new job goes to the back of its lane. */
    method PushBack(key: Key, l: nat, policy: ShutdownPolicy)
      requires l < |arena| && issued == |admitted|
      modifies this`issued, this`arena, this`pending, this`admitted, this`fate, this`finishCalls, this`runs
      ensures View() == Join(old(View()), key, l, policy) && issued == |admitted|
    {
      ghost var t := Join(View(), key, l, policy);
      var j := Job(issued, key, l, policy);
      issued := issued + 1;
      arena := arena[l := arena[l].(jobs := arena[l].jobs + [j])];
      pending := pending + 1;
      admitted, fate, finishCalls, runs := admitted + [j], fate + [Waiting], finishCalls + [0], runs + [0];
      assert arena == t.arena && admitted == t.admitted && fate == t.fate && finishCalls == t.finishCalls
             && runs == t.runs;
    }

    method Append(key: Key, policy: ShutdownPolicy) returns (l: nat)
      requires Valid()
      modifies this`issued, this`lanes, this`arena, this`pending, this`admitted, this`fate, this`finishCalls, this`runs
      ensures View() == Enqueue(old(View()), key, policy) && l == LaneFor(old(View()), key).1
      ensures issued == |admitted|
    {
      l := LaneOf(key);
      PushBack(key, l, policy);
    }

    method Admit(key: Key, policy: ShutdownPolicy)
      requires Valid()
      modifies this
      ensures issued == |admitted|
      ensures View() == Submit(old(View()), key, policy)
    {
      ghost var s := View();
      var l := Append(key, policy);
      SubmitParts(s, key, policy);
      MarkReady(l);
      LaunchWorkers();
    }

    /** The top of the worker loop: a job to run, or the worker retires. */
    method WorkTop() returns (job: seq<Job>)
      requires Valid()
      modifies this
      ensures issued == |admitted|
      ensures old(ready) == [] ==> job == [] && View() == Retire(old(View()))
      ensures old(ready) != [] ==> View() == Pick(old(View())) && job == [old(arena[ready[0]].jobs[0])]
    {
      if |ready| == 0 {
        workers := workers - 1;
        CloseIfDrained();
        job := [];
      } else {
        var j := TakeJob();
        job := [j];
      }
    }

    method TakeJob() returns (j: Job)
      requires FrontReady(View())
      modifies this`ready, this`lanes, this`arena, this`pending, this`active, this`fate, this`starts
      ensures View() == Pick(old(View())) && j == old(arena[ready[0]].jobs[0])
    {
      hide RemovePending, Unlisted;
      ghost var s := View();
      j := Unlist();
      ghost var t := View();
      RemovePendingJob(j);
      active := active + {j};
      fate, starts := fate[j.id := Picked], starts + [j];
      PickParts(s, t, j, View());
    }

    /** The front lane leaves the ready list for the worker that will run its first job. */
    method Unlist() returns (j: Job)
      requires FrontReady(View())
      modifies this`ready, this`arena
      ensures View() == Unlisted(old(View())) && j == old(arena[ready[0]].jobs[0]) && InLane(View(), j)
    {
      var l := ready[0];
      ready := ready[1..];
      j := arena[l].jobs[0];
      arena := arena[l := arena[l].(ready := false, active := arena[l].active + 1)];
      assert j in arena[l].jobs;
    }

    /** The bottom of the worker loop, after the task and its Finish returned. */
    method WorkBottom(j: Job)
      requires CanComplete(View(), j)
      modifies this
      ensures View() == Complete(old(View()), j) && issued == old(issued)
    {
      hide MakeReady;
      active := active - {j};
      fate := fate[j.id := Completed];
      arena := arena[j.lane := arena[j.lane].(active := arena[j.lane].active - 1)];
      MarkReady(j.lane);
    }

    method CloseIfDrained()
      modifies this`done
      ensures View() == FinishClosed(old(View()))
    {
      if closed && workers == 0 && pending == 0 && finishing == 0 { done := true; }
    }

    /** cancelPending up to its first unlock; false when the job already left its lane. */
    method CancelBegin(j: Job) returns (claimed: bool)
      requires Valid() && j.id < |admitted|
      modifies this
      ensures claimed <==> InLane(old(View()), j)
      ensures View() == if claimed then CancelClaim(old(View()), j) else old(View())
      ensures issued == |admitted|
    {
      if !(j.lane < |arena| && j in arena[j.lane].jobs) { return false; }
      calls := calls + [Call([], 0, true)];
      ClaimJob(|calls| - 1, j);
      finishing := finishing + 1;
      claimed := true;
    }

    /** removePending, after which the calling goroutine owns the job. */
    method ClaimJob(ghost c: nat, j: Job)
      requires InLane(View(), j) && c < |calls| && j.id < |fate|
      modifies this`pending, this`ready, this`lanes, this`arena, this`fate, this`calls
      ensures View() == Claim(old(View()), c, j).(finishing := finishing)
    {
      RemovePendingJob(j);
      fate := fate[j.id := Claimed(c, |calls[c].jobs|)];
      calls := calls[c := calls[c].(jobs := calls[c].jobs + [j])];
    }

    /** The last section of cancelPending and of stop; `n` is what the goroutine added. */
    method EndClaim(ghost c: nat, n: int)
      requires CanEndCall(View(), c) && n == |calls[c].jobs|
      modifies this
      ensures View() == EndCall(old(View()), c) && issued == old(issued)
    {
      finishing := finishing - n;
      calls := calls[c := calls[c].(open := false)];
      CloseIfDrained();
    }

    /** stop up to its first unlock. */
    method StopBegin(all: bool) returns (removed: seq<Job>, draining: bool)
      requires Valid()
      modifies this
      ensures CanStop(old(View()), all, removed) && issued == |admitted|
      ensures View() == Stop(old(View()), all, removed)
      ensures draining <==> exists j :: j in old(active) && j.shutdown == Drain
    {
      removed := StopRemove(all);
      draining := AnyDraining();
      CloseIfDrained();
    }

    method StopRemove(all: bool) returns (removed: seq<Job>)
      requires Callable(View())
      modifies this`closed, this`pending, this`ready, this`lanes, this`arena, this`fate, this`calls, this`finishing
      ensures CanStop(old(View()), all, removed)
      ensures View() == ClaimAll(OpenCall(old(View()).(closed := true)), |old(calls)|, removed)
    {
      ghost var s := View();
      closed := true;
      calls := calls + [Call([], 0, true)];
      removed := WalkLanes(all, s, View(), |s.calls|);
      finishing := finishing + |removed|;
    }

    /** The loop of stop over the lane table, in no particular order. */
    method WalkLanes(all: bool, ghost s: State, ghost o: State, ghost c: nat) returns (removed: seq<Job>)
      requires Callable(s) && o == OpenCall(s.(closed := true)) && c == |s.calls| && View() == o
      modifies this`pending, this`ready, this`lanes, this`arena, this`fate, this`calls
      ensures CanStop(s, all, removed) && Claims(View(), o, c, removed)
    {
      hide Callable, Claims, Walked, CanStop, Beside, Swept, Sorted;
      removed := [];
      var left := lanes.Keys;
      WalkStart(s, o, all);
      while left != {}
        invariant Walked(s, View(), left, removed, all)
        invariant Claims(View(), o, c, removed)
        decreases |left|
      {
        var k :| k in left;
        ghost var v, before := View(), removed;
        LaneJobs(s, v, left, removed, all, k);
        removed := SweepLane(lanes[k], all, removed, o, c);
        WalkedStep(s, v, View(), left, before, removed, all, k);
        left := left - {k};
      }
      WalkedAll(s, View(), removed, all);
    }

    /** The inner loop of stop, over the jobs of one lane. */
    method SweepLane(l: nat, all: bool, before: seq<Job>, ghost o: State, ghost c: nat) returns (removed: seq<Job>)
      requires l < |arena| && c < |calls| && Claims(View(), o, c, before)
      requires Distinct(arena[l].jobs)
      requires forall j :: j in arena[l].jobs ==> j.lane == l && j.id < |fate| && j !in before
      modifies this`pending, this`ready, this`lanes, this`arena, this`fate, this`calls
      ensures Claims(View(), o, c, removed)
      ensures Beside(old(View()), View(), l)
      ensures Sorted(before, removed, old(arena)[l].jobs, arena[l].jobs, all)
      ensures Swept(View(), l, all)
    {
      hide Sorted, Claims, Claim, Distinct;
      removed := before;
      ghost var jobs := arena[l].jobs;
      SortedNone(before, jobs, all);
      var i := 0;
      while i < |arena[l].jobs|
        invariant Beside(old(View()), View(), l)
        invariant Claims(View(), o, c, removed)
        invariant Sorted(before, removed, jobs, arena[l].jobs, all)
        invariant i <= |arena[l].jobs| && forall p :: 0 <= p < i ==> !Stoppable(all, arena[l].jobs[p])
        decreases |arena[l].jobs| - i
      {
        var j := arena[l].jobs[i];
        StillThere(before, removed, jobs, arena[l].jobs, all, i);
        if Stoppable(all, j) {
          ghost var v := View();
          SortedStep(before, removed, jobs, arena[l].jobs, all, i);
          ClaimJob(c, j);
          ClaimBeside(v, c, j);
          BesideTrans(old(View()), v, View(), l);
          ClaimsMore(v, View(), o, c, removed, j);
          removed := removed + [j];
        } else {
          i := i + 1;
        }
      }
    }

    method AnyDraining() returns (draining: bool)
      ensures draining <==> exists j :: j in active && j.shutdown == Drain
    {
      draining := false;
      var left := active;
      while left != {}
        invariant left <= active
        invariant draining <==> exists j :: j in active - left && j.shutdown == Drain
        decreases |left|
      {
        var j :| j in left;
        if j.shutdown == Drain { draining := true; }
        left := left - {j};
      }
    }
  }
}
