/** What every critical section of the queue keeps, over all interleavings. */
module QueueInvariant {
  import opened Basics
  import opened QueueState

  predicate Live(lane: Lane) { lane.jobs != [] || lane.active > 0 }

  /** A lane that a worker may take now. */
  predicate Takeable(lane: Lane) { lane.jobs != [] && (lane.key == NoKey || lane.active == 0) }

  // The clauses speak of the fields they depend on, and have a short form on states.

  /** One live lane per key, keyed lanes leave the table as soon as they are idle, and
      at most one job of a keyed lane is active. */
  ghost predicate LanesOk(lanes: map<Key, nat>, arena: seq<Lane>) {
    && (forall k :: k in lanes ==> lanes[k] < |arena| && arena[lanes[k]].key == k)
    && (forall l :: 0 <= l < |arena| && Live(arena[l]) ==> arena[l].key in lanes && lanes[arena[l].key] == l)
    && (forall k :: k in lanes && k != NoKey ==> Live(arena[lanes[k]]))
    && (forall l :: 0 <= l < |arena| ==> 0 <= arena[l].active && (arena[l].key != NoKey ==> arena[l].active <= 1))
  }

  ghost predicate LaneTable(s: State) { LanesOk(s.lanes, s.arena) }

  /** The ready list holds exactly the lanes that can be taken, once each. */
  ghost predicate ReadyOk(ready: seq<nat>, arena: seq<Lane>) {
    && Distinct(ready)
    && (forall i :: 0 <= i < |ready| ==> ready[i] < |arena|)
    && (forall l :: 0 <= l < |arena| ==> (l in ready <==> Takeable(arena[l])))
    && (forall l :: 0 <= l < |arena| ==> arena[l].ready == Takeable(arena[l]))
  }

  ghost predicate ReadyList(s: State) { ReadyOk(s.ready, s.arena) }

  ghost predicate Ascending(jobs: seq<Job>) {
    forall i, k :: 0 <= i < k < |jobs| ==> jobs[i].id < jobs[k].id
  }

  ghost predicate Belongs(arena: seq<Lane>, admitted: seq<Job>, fate: seq<Fate>, l: nat, j: Job)
    requires l < |arena| && |fate| == |admitted|
  {
    j.lane == l && j.key == arena[l].key && j.id < |admitted| && admitted[j.id] == j && fate[j.id] == Waiting
  }

  ghost predicate Resides(s: State, l: nat, j: Job)
    requires l < |s.arena| && |s.fate| == |s.admitted|
  {
    Belongs(s.arena, s.admitted, s.fate, l, j)
  }

  /** Lanes hold exactly the waiting jobs, each in the lane of its key, in admission order. */
  ghost predicate QueuedOk(arena: seq<Lane>, admitted: seq<Job>, fate: seq<Fate>) {
    && |fate| == |admitted|
    && (forall i :: 0 <= i < |admitted| ==> admitted[i].id == i)
    && (forall l :: 0 <= l < |arena| ==> Ascending(arena[l].jobs))
    && (forall l, i :: 0 <= l < |arena| && 0 <= i < |arena[l].jobs| ==>
          Belongs(arena, admitted, fate, l, arena[l].jobs[i]))
    && (forall i :: 0 <= i < |admitted| && fate[i] == Waiting ==> Holds(arena, admitted[i]))
  }

  ghost predicate Queued(s: State) { QueuedOk(s.arena, s.admitted, s.fate) }

  function ActiveOn(active: set<Job>, l: nat): set<Job> { set j | j in active && j.lane == l }

  /** The active set and the per-lane counters agree. */
  ghost predicate ActiveOk(active: set<Job>, arena: seq<Lane>, admitted: seq<Job>, fate: seq<Fate>) {
    && |fate| == |admitted|
    && (forall j :: j in active ==>
          && j.id < |admitted| && admitted[j.id] == j
          && fate[j.id] in {Picked, Running, Reported}
          && j.lane < |arena| && arena[j.lane].key == j.key)
    && (forall i :: 0 <= i < |admitted| && fate[i] in {Picked, Running, Reported} ==> admitted[i] in active)
    && (forall l :: 0 <= l < |arena| ==> arena[l].active == |ActiveOn(active, l)|)
  }

  ghost predicate ActiveJobs(s: State) { ActiveOk(s.active, s.arena, s.admitted, s.fate) }

  function LaneLengths(arena: seq<Lane>): nat {
    if arena == [] then 0 else LaneLengths(arena[..|arena| - 1]) + |arena[|arena| - 1].jobs|
  }

  function OpenJobs(calls: seq<Call>): nat {
    if calls == [] then 0
    else OpenJobs(calls[..|calls| - 1]) + (if calls[|calls| - 1].open then |calls[|calls| - 1].jobs| else 0)
  }

  /** The counters kept by hand equal what they count, within their bounds. */
  ghost predicate Counters(s: State) {
    && s.pending == LaneLengths(s.arena) <= s.capacity
    && s.finishing == OpenJobs(s.calls)
    && 1 <= s.concurrency
    && |s.active| <= s.workers <= s.concurrency
  }

  /** Every claimed job is owed its Finish by exactly one open call. */
  ghost predicate CallsOk(calls: seq<Call>, admitted: seq<Job>, fate: seq<Fate>) {
    && |fate| == |admitted|
    && (forall c :: 0 <= c < |calls| ==>
          calls[c].next <= |calls[c].jobs| && (!calls[c].open ==> calls[c].next == |calls[c].jobs|))
    && (forall c, p :: 0 <= c < |calls| && calls[c].next <= p < |calls[c].jobs| ==>
          calls[c].jobs[p].id < |fate| && fate[calls[c].jobs[p].id] == Claimed(c, p))
    && (forall i :: 0 <= i < |fate| && fate[i].Claimed? ==>
          var c, p := fate[i].call, fate[i].pos;
          c < |calls| && calls[c].open && calls[c].next <= p < |calls[c].jobs| && calls[c].jobs[p] == admitted[i])
  }

  ghost predicate Calls(s: State) { CallsOk(s.calls, s.admitted, s.fate) }

  /** Finish has been called once for the jobs whose fate says so, never for others;
      only a job that a worker took can have run, and at most once. */
  ghost predicate DeliveredOk(fate: seq<Fate>, finishCalls: seq<nat>, runs: seq<nat>) {
    && |fate| == |finishCalls| == |runs|
    && forall i :: 0 <= i < |fate| ==>
         && finishCalls[i] == (if fate[i] in {Reported, Completed, Dropped} then 1 else 0)
         && runs[i] <= (if fate[i] in {Running, Reported, Completed} then 1 else 0)
  }

  ghost predicate Deliveries(s: State) { DeliveredOk(s.fate, s.finishCalls, s.runs) }

  /** Jobs of one key start in admission order, and before every job still waiting. */
  ghost predicate StartsOk(starts: seq<Job>, admitted: seq<Job>, fate: seq<Fate>) {
    && |fate| == |admitted|
    && (forall a :: 0 <= a < |starts| ==> starts[a].id < |admitted| && admitted[starts[a].id] == starts[a])
    && (forall a, b :: 0 <= a < b < |starts| && starts[a].key == starts[b].key ==> starts[a].id < starts[b].id)
    && (forall a, i :: 0 <= a < |starts| && 0 <= i < |admitted| && fate[i] == Waiting ==>
          admitted[i].key == starts[a].key ==> starts[a].id < i)
  }

  ghost predicate StartOrder(s: State) { StartsOk(s.starts, s.admitted, s.fate) }

  /** Work conservation: unless every worker slot is used, the workers launched but not
      yet busy are enough for everything that could run now. */
  ghost predicate Conserved(s: State)
    requires forall i :: 0 <= i < |s.ready| ==> s.ready[i] < |s.arena|
  {
    s.workers == s.concurrency || s.workers - |s.active| >= Runnable(s.ready, s.arena)
  }

  predicate Drained(s: State) {
    s.closed && s.workers == 0 && s.pending == 0 && s.finishing == 0
  }

  /** What holds inside a critical section too. */
  ghost predicate Core(s: State) {
    && LaneTable(s) && ReadyList(s) && Queued(s) && ActiveJobs(s) && Counters(s)
    && Calls(s) && Deliveries(s) && StartOrder(s) && Conserved(s)
    && (s.done ==> Drained(s))
  }

  /** What holds whenever the mutex is free. */
  ghost predicate Inv(s: State) { Core(s) && (s.done <==> Drained(s)) }

  // ---- list facts ----------------------------------------------------------

  lemma {:induction false} RemoveDistinct<T>(s: seq<T>, x: T)
    requires Distinct(s)
    ensures Distinct(Remove(s, x)) && x !in Remove(s, x)
  {
    if s != [] {
      assert Distinct(s[1..]);
      RemoveDistinct(s[1..], x);
      if s[0] == x {
        assert x !in s[1..];
      } else {
        var r := Remove(s[1..], x);
        assert forall y :: y in r ==> y in s[1..];
        assert s[0] !in s[1..];
        assert s[0] !in r;
      }
    }
  }

  lemma AscendingTail(jobs: seq<Job>)
    requires Ascending(jobs) && jobs != []
    ensures Ascending(jobs[1..]) && forall y <- jobs[1..] :: jobs[0].id < y.id
  {
    assert forall i :: 0 <= i < |jobs| - 1 ==> jobs[1..][i] == jobs[i + 1];
  }

  lemma AscendingCons(x: Job, jobs: seq<Job>)
    requires Ascending(jobs) && forall y <- jobs :: x.id < y.id
    ensures Ascending([x] + jobs)
  {
  }

  lemma {:induction false} RemoveAscending(jobs: seq<Job>, j: Job)
    requires Ascending(jobs)
    ensures Ascending(Remove(jobs, j)) && j !in Remove(jobs, j)
  {
    if jobs != [] {
      hide Ascending;
      AscendingTail(jobs);
      RemoveAscending(jobs[1..], j);
      if jobs[0] != j { AscendingCons(jobs[0], Remove(jobs[1..], j)); }
    } else {
      assert Remove(jobs, j) == [];
    }
  }

  lemma {:induction false} LaneLengthsUpdate(arena: seq<Lane>, l: nat, lane: Lane)
    requires l < |arena|
    ensures LaneLengths(arena[l := lane]) == LaneLengths(arena) - |arena[l].jobs| + |lane.jobs|
  {
    var n := |arena| - 1;
    if l < n {
      LaneLengthsUpdate(arena[..n], l, lane);
      assert arena[l := lane][..n] == arena[..n][l := lane];
    } else {
      assert arena[l := lane][..n] == arena[..n];
    }
  }

  lemma {:induction false} LaneLengthsZero(arena: seq<Lane>)
    ensures LaneLengths(arena) == 0 <==> forall l :: 0 <= l < |arena| ==> arena[l].jobs == []
  {
    if arena != [] {
      var n := |arena| - 1;
      LaneLengthsZero(arena[..n]);
      assert forall l :: 0 <= l < n ==> arena[..n][l] == arena[l];
    }
  }

  lemma {:induction false} OpenJobsUpdate(calls: seq<Call>, c: nat, call: Call)
    requires c < |calls|
    ensures OpenJobs(calls[c := call])
         == OpenJobs(calls) - (if calls[c].open then |calls[c].jobs| else 0) + (if call.open then |call.jobs| else 0)
  {
    var n := |calls| - 1;
    if c < n {
      OpenJobsUpdate(calls[..n], c, call);
      assert calls[c := call][..n] == calls[..n][c := call];
    } else {
      assert calls[c := call][..n] == calls[..n];
    }
  }

  lemma {:induction false} OpenJobsAtLeast(calls: seq<Call>, c: nat)
    requires c < |calls| && calls[c].open
    ensures |calls[c].jobs| <= OpenJobs(calls)
  {
    var n := |calls| - 1;
    if c < n { OpenJobsAtLeast(calls[..n], c); }
  }

  // ---- the weight of the ready list ------------------------------------------

  /** Lanes off the list do not matter; a lane on it counts by its own weight. */
  lemma {:induction false} RunnableUpdate(ready: seq<nat>, arena: seq<Lane>, l: nat, lane: Lane)
    requires Distinct(ready) && l < |arena|
    requires forall i :: 0 <= i < |ready| ==> ready[i] < |arena|
    ensures Runnable(ready, arena[l := lane])
         == Runnable(ready, arena) + (if l in ready then Weight(lane) - Weight(arena[l]) else 0)
  {
    if ready != [] {
      assert Distinct(ready[1..]);
      RunnableUpdate(ready[1..], arena, l, lane);
      if ready[0] == l { assert l !in ready[1..]; }
    }
  }

  lemma {:induction false} RunnableRemove(ready: seq<nat>, arena: seq<Lane>, l: nat)
    requires Distinct(ready) && l in ready
    requires forall i :: 0 <= i < |ready| ==> ready[i] < |arena|
    ensures var r := Remove<nat>(ready, l);
            && (forall i :: 0 <= i < |r| ==> r[i] < |arena|)
            && Runnable(r, arena) == Runnable(ready, arena) - Weight(arena[l])
  {
    var r := Remove<nat>(ready, l);
    forall i | 0 <= i < |r| ensures r[i] < |arena| { assert r[i] in ready; }
    if ready[0] != l {
      assert Distinct(ready[1..]);
      RunnableRemove(ready[1..], arena, l);
      assert r[1..] == Remove(ready[1..], l);
    }
  }

  lemma {:induction false} RunnableAppend(ready: seq<nat>, arena: seq<Lane>, l: nat)
    requires l < |arena|
    requires forall i :: 0 <= i < |ready| ==> ready[i] < |arena|
    ensures Runnable(ready + [l], arena) == Runnable(ready, arena) + Weight(arena[l])
  {
    if ready != [] {
      RunnableAppend(ready[1..], arena, l);
      assert (ready + [l])[1..] == ready[1..] + [l];
    } else {
      assert ready + [l] == [l];
    }
  }
}
