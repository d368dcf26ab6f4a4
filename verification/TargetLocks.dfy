/** Per-target locks counted by their users: entering, waiting, and the release in two steps. */
module TargetLocks {
  import opened Options

  type Caller = nat

  /** A lock object; `taken` is whether its one-place channel is full. */
  datatype Lock = Lock(target: string, taken: bool, users: int)

  datatype Stage = Waiting | Holding | Releasing

  datatype Use = Use(lock: nat, stage: Stage)

  /** `heap` holds every lock object ever made, `locks` the map by target, `uses` where each
      caller stands. */
  datatype State = State(heap: seq<Lock>, locks: map<string, nat>, uses: map<Caller, Use>)

  datatype Step = Enter(caller: Caller, target: string) | Acquire(caller: Caller) | GiveUp(caller: Caller)
                | Free(caller: Caller) | Leave(caller: Caller)

  // ---- the critical sections ------------------------------------------------------------------

  /** The table after a caller has entered for a target, and its lock object. */
  function Entered(heap: seq<Lock>, locks: map<string, nat>, t: string): (seq<Lock>, map<string, nat>, nat)
    requires t in locks ==> locks[t] < |heap|
  {
    if t in locks then
      var l := locks[t];
      (heap[l := heap[l].(users := heap[l].users + 1)], locks, l)
    else (heap + [Lock(t, false, 1)], locks[t := |heap|], |heap|)
  }

  function Left(heap: seq<Lock>, locks: map<string, nat>, l: nat): (seq<Lock>, map<string, nat>)
    requires l < |heap|
  {
    var lock := heap[l].(users := heap[l].users - 1);
    (heap[l := lock], if lock.users == 0 then locks - {lock.target} else locks)
  }

  predicate Enabled(s: State, step: Step) {
    match step
    case Enter(c, t) => c !in s.uses && (t in s.locks ==> s.locks[t] < |s.heap|)
    case Acquire(c) =>
      c in s.uses && s.uses[c].stage == Waiting && s.uses[c].lock < |s.heap| && !s.heap[s.uses[c].lock].taken
    case GiveUp(c) => c in s.uses && s.uses[c].stage == Waiting
    case Free(c) =>
      c in s.uses && s.uses[c].stage == Holding && s.uses[c].lock < |s.heap| && s.heap[s.uses[c].lock].taken
    case Leave(c) => c in s.uses && s.uses[c].stage == Releasing && s.uses[c].lock < |s.heap|
  }

  function After(s: State, step: Step): State
    requires Enabled(s, step)
  {
    match step
    case Enter(c, t) =>
      var (heap, locks, l) := Entered(s.heap, s.locks, t);
      State(heap, locks, s.uses[c := Use(l, Waiting)])
    case Acquire(c) =>
      var l := s.uses[c].lock;
      s.(heap := s.heap[l := s.heap[l].(taken := true)], uses := s.uses[c := Use(l, Holding)])
    case GiveUp(c) => s.(uses := s.uses[c := Use(s.uses[c].lock, Releasing)])
    case Free(c) =>
      var l := s.uses[c].lock;
      s.(heap := s.heap[l := s.heap[l].(taken := false)], uses := s.uses[c := Use(l, Releasing)])
    case Leave(c) =>
      var (heap, locks) := Left(s.heap, s.locks, s.uses[c].lock);
      State(heap, locks, s.uses - {c})
  }

  /** The table as the manager keeps it. */
  class Table {
    var heap: seq<Lock>
    var locks: map<string, nat>

    constructor ()
      ensures heap == [] && locks == map[]
    {
      heap, locks := [], map[];
    }

    /** The first part of lockTarget. */
    method Take(t: string) returns (l: nat)
      requires t in locks ==> locks[t] < |heap|
      modifies this
      ensures (heap, locks, l) == Entered(old(heap), old(locks), t)
    {
      if t in locks {
        l := locks[t];
      } else {
        l := |heap|;
        heap := heap + [Lock(t, false, 0)];
        locks := locks[t := l];
      }
      heap := heap[l := heap[l].(users := heap[l].users + 1)];
      assert t !in old(locks) ==> heap == old(heap) + [Lock(t, false, 1)];
    }

    /** release */
    method GiveBack(l: nat)
      requires l < |heap|
      modifies this
      ensures (heap, locks) == Left(old(heap), old(locks), l)
    {
      heap := heap[l := heap[l].(users := heap[l].users - 1)];
      if heap[l].users == 0 { locks := locks - {heap[l].target}; }
    }
  }

  // ---- the invariant ------------------------------------------------------------------------------

  function Users(uses: map<Caller, Use>, l: nat): set<Caller> { set c | c in uses && uses[c].lock == l }

  function Holders(uses: map<Caller, Use>, l: nat): set<Caller> { set c | c in uses && uses[c] == Use(l, Holding) }

  ghost predicate Counted(heap: seq<Lock>, uses: map<Caller, Use>) {
    forall l :: 0 <= l < |heap| ==> heap[l].users == |Users(uses, l)|
  }

  /** The channel is full exactly while one caller holds the lock. */
  ghost predicate Tokens(heap: seq<Lock>, uses: map<Caller, Use>) {
    forall l :: 0 <= l < |heap| ==> |Holders(uses, l)| == if heap[l].taken then 1 else 0
  }

  ghost predicate Placed(heap: seq<Lock>, uses: map<Caller, Use>) {
    forall c :: c in uses ==> uses[c].lock < |heap|
  }

  /** The map names exactly the lock objects with users, each under its target. */
  ghost predicate Mapped(heap: seq<Lock>, locks: map<string, nat>) {
    && (forall t :: t in locks ==> locks[t] < |heap| && heap[locks[t]].target == t && heap[locks[t]].users != 0)
    && (forall l :: 0 <= l < |heap| && heap[l].users != 0 ==> heap[l].target in locks && locks[heap[l].target] == l)
  }

  ghost predicate Inv(s: State) {
    Counted(s.heap, s.uses) && Tokens(s.heap, s.uses) && Placed(s.heap, s.uses) && Mapped(s.heap, s.locks)
  }

  // ---- counting --------------------------------------------------------------------------------------

  lemma UsersMoved(uses: map<Caller, Use>, c: Caller, u: Use, l: nat)
    requires c in uses && uses[c].lock == u.lock
    ensures Users(uses[c := u], l) == Users(uses, l)
  {
  }

  lemma UsersJoined(uses: map<Caller, Use>, c: Caller, u: Use, l: nat)
    requires c !in uses
    ensures |Users(uses[c := u], l)| == |Users(uses, l)| + (if u.lock == l then 1 else 0)
    ensures u.stage != Holding ==> Holders(uses[c := u], l) == Holders(uses, l)
  {
    assert Users(uses[c := u], l) == Users(uses, l) + (if u.lock == l then {c} else {});
  }

  lemma UsersGone(uses: map<Caller, Use>, c: Caller, l: nat)
    requires c in uses
    ensures |Users(uses - {c}, l)| == |Users(uses, l)| - (if uses[c].lock == l then 1 else 0)
    ensures uses[c].stage != Holding ==> Holders(uses - {c}, l) == Holders(uses, l)
  {
    assert Users(uses - {c}, l) == Users(uses, l) - (if uses[c].lock == l then {c} else {});
  }

  lemma HolderCame(uses: map<Caller, Use>, c: Caller, l: nat, k: nat)
    requires c in uses && uses[c].lock == l && uses[c].stage != Holding
    ensures |Holders(uses[c := Use(l, Holding)], k)| == |Holders(uses, k)| + (if k == l then 1 else 0)
  {
    assert Holders(uses[c := Use(l, Holding)], k) == Holders(uses, k) + (if k == l then {c} else {});
  }

  lemma HolderWent(uses: map<Caller, Use>, c: Caller, l: nat, k: nat)
    requires c in uses && uses[c] == Use(l, Holding)
    ensures |Holders(uses[c := Use(l, Releasing)], k)| == |Holders(uses, k)| - (if k == l then 1 else 0)
  {
    assert Holders(uses[c := Use(l, Releasing)], k) == Holders(uses, k) - (if k == l then {c} else {});
  }

  lemma NoUsersYet(s: State)
    requires Placed(s.heap, s.uses)
    ensures |Users(s.uses, |s.heap|)| == 0 && |Holders(s.uses, |s.heap|)| == 0
  {
    assert Users(s.uses, |s.heap|) == {} && Holders(s.uses, |s.heap|) == {};
  }

  // ---- every step keeps it -----------------------------------------------------------------------------

  lemma EnterOk(s: State, c: Caller, t: string)
    requires Inv(s) && Enabled(s, Enter(c, t))
    ensures Inv(After(s, Enter(c, t)))
  {
    var v := After(s, Enter(c, t));
    NoUsersYet(s);
    forall l | 0 <= l < |v.heap|
      ensures v.heap[l].users == |Users(v.uses, l)| && |Holders(v.uses, l)| == if v.heap[l].taken then 1 else 0
    {
      UsersJoined(s.uses, c, v.uses[c], l);
    }
  }

  lemma AcquireOk(s: State, c: Caller)
    requires Inv(s) && Enabled(s, Acquire(c))
    ensures Inv(After(s, Acquire(c)))
  {
    var v := After(s, Acquire(c));
    forall l | 0 <= l < |v.heap|
      ensures v.heap[l].users == |Users(v.uses, l)| && |Holders(v.uses, l)| == if v.heap[l].taken then 1 else 0
    {
      UsersMoved(s.uses, c, v.uses[c], l);
      HolderCame(s.uses, c, s.uses[c].lock, l);
    }
  }

  lemma GiveUpOk(s: State, c: Caller)
    requires Inv(s) && Enabled(s, GiveUp(c))
    ensures Inv(After(s, GiveUp(c)))
  {
    var v := After(s, GiveUp(c));
    forall l | 0 <= l < |v.heap|
      ensures v.heap[l].users == |Users(v.uses, l)| && |Holders(v.uses, l)| == if v.heap[l].taken then 1 else 0
    {
      UsersMoved(s.uses, c, v.uses[c], l);
      assert Holders(v.uses, l) == Holders(s.uses, l);
    }
  }

  lemma FreeOk(s: State, c: Caller)
    requires Inv(s) && Enabled(s, Free(c))
    ensures Inv(After(s, Free(c)))
  {
    var v := After(s, Free(c));
    forall l | 0 <= l < |v.heap|
      ensures v.heap[l].users == |Users(v.uses, l)| && |Holders(v.uses, l)| == if v.heap[l].taken then 1 else 0
    {
      UsersMoved(s.uses, c, v.uses[c], l);
      HolderWent(s.uses, c, s.uses[c].lock, l);
    }
  }

  lemma LeaveOk(s: State, c: Caller)
    requires Inv(s) && Enabled(s, Leave(c))
    ensures Inv(After(s, Leave(c)))
  {
    var v := After(s, Leave(c));
    forall l | 0 <= l < |v.heap|
      ensures v.heap[l].users == |Users(v.uses, l)| && |Holders(v.uses, l)| == if v.heap[l].taken then 1 else 0
    {
      UsersGone(s.uses, c, l);
    }
    assert s.heap[s.uses[c].lock].users != 0 by { assert c in Users(s.uses, s.uses[c].lock); }
  }

  lemma StepKeepsInv(s: State, step: Step)
    requires Inv(s) && Enabled(s, step)
    ensures Inv(After(s, step))
  {
    match step
    case Enter(c, t) => EnterOk(s, c, t);
    case Acquire(c) => AcquireOk(s, c);
    case GiveUp(c) => GiveUpOk(s, c);
    case Free(c) => FreeOk(s, c);
    case Leave(c) => LeaveOk(s, c);
  }

  // ---- whole runs -----------------------------------------------------------------------------------------

  /** Where the steps lead from the empty table, if every one of them was possible. */
  function Outcome(steps: seq<Step>): Option<State> {
    if steps == [] then Some(State([], map[], map[]))
    else
      var p, last := Outcome(steps[..|steps| - 1]), steps[|steps| - 1];
      if p.Some? && Enabled(p.value, last) then Some(After(p.value, last)) else None
  }

  predicate Reached(s: State, steps: seq<Step>) { Outcome(steps) == Some(s) }

  lemma {:induction false} ReachedInv(s: State, steps: seq<Step>)
    requires Reached(s, steps)
    ensures Inv(s)
    decreases |steps|
  {
    if steps != [] {
      var p := Outcome(steps[..|steps| - 1]).value;
      ReachedInv(p, steps[..|steps| - 1]);
      StepKeepsInv(p, steps[|steps| - 1]);
    }
  }

  /** However the steps interleave, two callers never hold the lock of one target. */
  lemma MutualExclusion(s: State, steps: seq<Step>, c: Caller, d: Caller)
    requires Reached(s, steps) && c in s.uses && d in s.uses && c != d
    requires s.uses[c].stage == Holding && s.uses[d].stage == Holding
    ensures s.uses[c].lock < |s.heap| && s.uses[d].lock < |s.heap|
    ensures s.heap[s.uses[c].lock].target != s.heap[s.uses[d].lock].target
  {
    ReachedInv(s, steps);
    var l, k := s.uses[c].lock, s.uses[d].lock;
    assert c in Users(s.uses, l) && d in Users(s.uses, k);
    if l == k {
      assert {c, d} <= Holders(s.uses, l);
      TwoMembers(Holders(s.uses, l), c, d);
    }
  }

  lemma TwoMembers(a: set<Caller>, c: Caller, d: Caller)
    requires c in a && d in a && c != d
    ensures |a| >= 2
  {
    assert |{c, d}| == 2;
    assert a == {c, d} + (a - {c, d});
  }

  /** Two lock objects in use are never for the same target, and the map has a target exactly
      while some caller waits for, holds or is giving back its lock. */
  lemma OneLockPerTarget(s: State, steps: seq<Step>)
    requires Reached(s, steps)
    ensures forall l, k :: 0 <= l < k < |s.heap| && s.heap[l].users != 0 && s.heap[k].users != 0 ==>
              s.heap[l].target != s.heap[k].target
    ensures forall t :: t in s.locks
              <==> exists c :: c in s.uses && s.uses[c].lock < |s.heap| && s.heap[s.uses[c].lock].target == t
  {
    ReachedInv(s, steps);
    forall t | t in s.locks
      ensures exists c :: c in s.uses && s.uses[c].lock < |s.heap| && s.heap[s.uses[c].lock].target == t
    {
      assert Users(s.uses, s.locks[t]) != {};
      var c :| c in Users(s.uses, s.locks[t]);
    }
    forall c | c in s.uses ensures s.uses[c].lock < |s.heap| && s.heap[s.uses[c].lock].target in s.locks {
      assert c in Users(s.uses, s.uses[c].lock);
    }
  }

  /** A caller that waits can go on as soon as nobody holds the lock it waits for. */
  lemma WaiterCanAcquire(s: State, steps: seq<Step>, c: Caller)
    requires Reached(s, steps) && c in s.uses && s.uses[c].stage == Waiting
    ensures Enabled(s, Acquire(c)) <==> forall d :: d in s.uses ==> s.uses[d] != Use(s.uses[c].lock, Holding)
  {
    ReachedInv(s, steps);
    var l := s.uses[c].lock;
    if s.heap[l].taken {
      assert Holders(s.uses, l) != {};
      var d :| d in Holders(s.uses, l);
      assert s.uses[d] == Use(l, Holding);
    } else {
      assert Holders(s.uses, l) == {};
      forall d | d in s.uses ensures s.uses[d] != Use(l, Holding) { assert d !in Holders(s.uses, l); }
    }
  }

  // ---- one lock a target ------------------------------------------------------------------------------------

  /** Where a caller stands, told from the steps alone. */
  datatype Standing = Away | At(target: string, stage: Stage)

  function Moved(at: Standing, stage: Stage): Standing {
    if at.At? then At(at.target, stage) else Away
  }

  function Stands(steps: seq<Step>, c: Caller): Standing {
    if steps == [] then Away
    else
      var at, last := Stands(steps[..|steps| - 1], c), steps[|steps| - 1];
      if last.caller != c then at
      else
        match last
        case Enter(_, t) => At(t, Waiting)
        case Acquire(_) => Moved(at, Holding)
        case GiveUp(_) => Moved(at, Releasing)
        case Free(_) => Moved(at, Releasing)
        case Leave(_) => Away
  }

  /** The steps that one lock for each target would allow next. */
  ghost predicate Allowed(steps: seq<Step>, step: Step) {
    var at := Stands(steps, step.caller);
    match step
    case Enter(_, _) => at.Away?
    case Acquire(_) => at.At? && at.stage.Waiting? && forall d :: Stands(steps, d) != At(at.target, Holding)
    case GiveUp(_) => at.At? && at.stage.Waiting?
    case Free(_) => at.At? && at.stage.Holding?
    case Leave(_) => at.At? && at.stage.Releasing?
  }

  ghost predicate AllAllowed(steps: seq<Step>) {
    forall k :: 0 <= k < |steps| ==> Allowed(steps[..k], steps[k])
  }

  /** The table knows where everyone stands. */
  ghost predicate Agrees(s: State, steps: seq<Step>) {
    forall c :: if c in s.uses
                then s.uses[c].lock < |s.heap| && Stands(steps, c) == At(s.heap[s.uses[c].lock].target, s.uses[c].stage)
                else Stands(steps, c) == Away
  }

  lemma TargetsStay(s: State, step: Step, l: nat)
    requires Enabled(s, step) && l < |s.heap|
    ensures l < |After(s, step).heap| && After(s, step).heap[l].target == s.heap[l].target
  {
  }

  lemma AgreesAfter(s: State, steps: seq<Step>, step: Step)
    requires Inv(s) && Agrees(s, steps) && Enabled(s, step)
    ensures Agrees(After(s, step), steps + [step])
  {
    var v, all := After(s, step), steps + [step];
    assert all[..|all| - 1] == steps;
    forall c
      ensures if c in v.uses
              then v.uses[c].lock < |v.heap| && Stands(all, c) == At(v.heap[v.uses[c].lock].target, v.uses[c].stage)
              else Stands(all, c) == Away
    {
      if c in s.uses { TargetsStay(s, step, s.uses[c].lock); }
    }
  }

  /** Of two callers at one target, both use the lock object that the map names. */
  lemma SameLock(s: State, c: Caller, d: Caller)
    requires Inv(s) && c in s.uses && d in s.uses
    requires s.heap[s.uses[c].lock].target == s.heap[s.uses[d].lock].target
    ensures s.uses[c].lock == s.uses[d].lock
  {
    assert c in Users(s.uses, s.uses[c].lock) && d in Users(s.uses, s.uses[d].lock);
  }

  lemma EnabledIsAllowed(s: State, steps: seq<Step>, step: Step)
    requires Reached(s, steps) && Agrees(s, steps)
    ensures Enabled(s, step) <==> Allowed(steps, step)
  {
    ReachedInv(s, steps);
    var c := step.caller;
    assert Agrees(s, steps);
    if step.Acquire? && c in s.uses && s.uses[c].stage == Waiting {
      WaiterCanAcquire(s, steps, c);
      forall d ensures Stands(steps, d) == At(Stands(steps, c).target, Holding)
                       <==> d in s.uses && s.uses[d] == Use(s.uses[c].lock, Holding)
      {
        if d in s.uses && Stands(steps, d) == At(Stands(steps, c).target, Holding) { SameLock(s, c, d); }
      }
    } else if step.Free? && c in s.uses && s.uses[c].stage == Holding {
      assert c in Holders(s.uses, s.uses[c].lock);
    }
  }

  /** The table behaves as one lock for each target: the runs it has are exactly those that
      one lock a target allows, and it holds each caller where its steps have put it. */
  lemma {:induction false} RunsOfOneLock(steps: seq<Step>)
    ensures Outcome(steps).Some? <==> AllAllowed(steps)
    ensures Outcome(steps).Some? ==> Agrees(Outcome(steps).value, steps)
  {
    if steps != [] {
      var before, last := steps[..|steps| - 1], steps[|steps| - 1];
      RunsOfOneLock(before);
      assert before + [last] == steps;
      assert forall k :: 0 <= k < |before| ==> steps[..k] == before[..k];
      if Outcome(before).Some? {
        var p := Outcome(before).value;
        EnabledIsAllowed(p, before, last);
        if Enabled(p, last) {
          ReachedInv(p, before);
          AgreesAfter(p, before, last);
        }
      }
      assert AllAllowed(steps) <==> AllAllowed(before) && Allowed(before, last);
    }
  }
}
