/** The completion record of one emission, and a subscription's connection. */
module SignalEmission {
  import opened Options

  // ---- emission ----------------------------------------------------------------------------------

  datatype Result = Result(value: int, err: Option<string>, started: bool)

  /** Callbacks are named by numbers; `completed` and `left` list those that have been run, on
      completion and on exit. An asynchronous emission has no `done` channel and no results. */
  datatype Emission = Emission(synchronous: bool, results: seq<Result>, finished: seq<bool>, started: seq<bool>,
                               remaining: int, done: bool, cancelled: bool, callbacks: seq<nat>, completed: seq<nat>,
                               work: int, exitCallbacks: seq<nat>, left: seq<nat>)

  function Repeat<T>(x: T, n: nat): (s: seq<T>)
    ensures |s| == n && forall i :: 0 <= i < n ==> s[i] == x
  {
    seq(n, i requires 0 <= i < n => x)
  }

  function NewEmission(n: nat, synchronous: bool): Emission {
    var size := if synchronous then n else 0;
    Emission(synchronous, Repeat(Result(0, None, false), size), Repeat(false, size), Repeat(false, size),
             size, synchronous && n == 0, n == 0, [], [], n, [], [])
  }

  function Finish(e: Emission, i: nat, r: Result): Emission
    requires i < |e.finished| == |e.results| == |e.started|
  {
    if e.finished[i] then e
    else
      var f := e.(results := e.results[i := r.(started := r.started || e.started[i])],
                  finished := e.finished[i := true], remaining := e.remaining - 1);
      if f.remaining != 0 then f
      else f.(done := true, cancelled := true, completed := e.completed + e.callbacks, callbacks := [])
  }

  function OnComplete(e: Emission, fn: nat): Emission {
    if e.remaining != 0 then e.(callbacks := e.callbacks + [fn]) else e.(completed := e.completed + [fn])
  }

  function Exit(e: Emission): Emission {
    var f := e.(work := e.work - 1);
    if f.work != 0 then f
    else f.(cancelled := e.cancelled || !e.synchronous, left := e.left + e.exitCallbacks, exitCallbacks := [])
  }

  function OnExit(e: Emission, fn: nat): Emission {
    if e.work != 0 then e.(exitCallbacks := e.exitCallbacks + [fn]) else e.(left := e.left + [fn])
  }

  /** How many are not finished yet. */
  function Pending(finished: seq<bool>): nat {
    if finished == [] then 0 else (if finished[|finished| - 1] then 0 else 1) + Pending(finished[..|finished| - 1])
  }

  ghost predicate EmissionOk(e: Emission) {
    && |e.results| == |e.finished| == |e.started|
    && e.remaining == Pending(e.finished)
    && (e.done <==> e.synchronous && e.remaining == 0)
    && (if e.remaining == 0 then e.callbacks == [] else e.completed == [])
    && 0 <= e.work && (if e.work == 0 then e.exitCallbacks == [] else e.left == [])
    && (e.cancelled <==> if e.synchronous then e.remaining == 0 else e.work == 0)
  }

  class EmissionObject {
    const synchronous: bool
    var results: seq<Result>
    var finished: seq<bool>
    var started: seq<bool>
    var remaining: int
    var done: bool
    var cancelled: bool
    var callbacks: seq<nat>
    var work: int
    var exitCallbacks: seq<nat>
    ghost var completed: seq<nat>
    ghost var left: seq<nat>

    ghost function View(): Emission
      reads this
    {
      Emission(synchronous, results, finished, started, remaining, done, cancelled, callbacks, completed, work,
               exitCallbacks, left)
    }

    constructor (n: nat, synchronous: bool)
      ensures View() == NewEmission(n, synchronous)
    {
      this.synchronous := synchronous;
      var size := if synchronous then n else 0;
      results, finished, started := Repeat(Result(0, None, false), size), Repeat(false, size), Repeat(false, size);
      remaining, done, cancelled, callbacks, completed := size, synchronous && n == 0, n == 0, [], [];
      work, exitCallbacks, left := n, [], [];
    }

    /** Returns the callbacks to call once the lock is given back. */
    method FinishOne(i: nat, r: Result) returns (run: seq<nat>)
      requires i < |finished| == |results| == |started|
      modifies this
      ensures View() == Finish(old(View()), i, r)
      ensures completed == old(completed) + run
    {
      run := [];
      if finished[i] { return; }
      results := results[i := r.(started := r.started || started[i])];
      finished := finished[i := true];
      remaining := remaining - 1;
      if remaining != 0 { return; }
      run := callbacks;
      callbacks := [];
      done := true;
      completed := completed + run;
      cancelled := true;
    }

    method AddComplete(fn: nat) returns (now: bool)
      modifies this
      ensures View() == OnComplete(old(View()), fn) && (now <==> completed != old(completed))
    {
      now := remaining == 0;
      if remaining != 0 { callbacks := callbacks + [fn]; } else { completed := completed + [fn]; }
    }

    method ExitOne() returns (run: seq<nat>)
      modifies this
      ensures View() == Exit(old(View()))
      ensures left == old(left) + run
    {
      run := [];
      work := work - 1;
      if work != 0 { return; }
      if !synchronous { cancelled := true; }
      run := exitCallbacks;
      exitCallbacks := [];
      left := left + run;
    }

    method AddExit(fn: nat) returns (now: bool)
      modifies this
      ensures View() == OnExit(old(View()), fn) && (now <==> left != old(left))
    {
      now := work == 0;
      if work != 0 { exitCallbacks := exitCallbacks + [fn]; } else { left := left + [fn]; }
    }
  }

  // ---- what the record keeps ------------------------------------------------------------------------

  lemma {:induction false} PendingUpdate(finished: seq<bool>, i: nat)
    requires i < |finished|
    ensures Pending(finished[i := true]) == Pending(finished) - (if finished[i] then 0 else 1)
  {
    var n := |finished| - 1;
    if i == n {
      assert finished[i := true][..n] == finished[..n];
    } else {
      PendingUpdate(finished[..n], i);
      assert finished[i := true][..n] == finished[..n][i := true];
    }
  }

  lemma {:induction false} PendingZero(finished: seq<bool>)
    ensures Pending(finished) == 0 <==> forall i :: 0 <= i < |finished| ==> finished[i]
  {
    if finished != [] {
      var n := |finished| - 1;
      PendingZero(finished[..n]);
      assert forall i :: 0 <= i < n ==> finished[..n][i] == finished[i];
    }
  }

  lemma {:induction false} PendingAll(n: nat)
    ensures Pending(Repeat(false, n)) == n
  {
    if n > 0 {
      PendingAll(n - 1);
      assert Repeat(false, n)[..n - 1] == Repeat(false, n - 1);
    }
  }

  lemma NewOk(n: nat, synchronous: bool)
    ensures EmissionOk(NewEmission(n, synchronous))
  {
    PendingAll(if synchronous then n else 0);
  }

  lemma FinishOk(e: Emission, i: nat, r: Result)
    requires EmissionOk(e) && i < |e.finished|
    requires e.synchronous
    ensures EmissionOk(Finish(e, i, r))
  {
    PendingUpdate(e.finished, i);
  }

  /** One result for each registration, the first, with the note whether the task had been
      started: later ones change nothing. */
  lemma FirstWriterWins(e: Emission, i: nat, r: Result, j: nat, s: Result)
    requires EmissionOk(e) && e.synchronous && i < |e.finished| && j < |e.finished|
    ensures Finish(e, i, r).finished[i]
    ensures !e.finished[i] ==>
              var recorded := Finish(e, i, r).results[i];
              recorded.value == r.value && recorded.err == r.err && (recorded.started <==> r.started || e.started[i])
    ensures j != i ==> Finish(e, i, r).finished[j] == e.finished[j] && Finish(e, i, r).results[j] == e.results[j]
    ensures e.finished[j] ==> Finish(e, i, r).finished[j] && Finish(e, i, r).results[j] == e.results[j]
    ensures Finish(Finish(e, i, r), i, s) == Finish(e, i, r)
  {
  }

  /** The channel closes with the last result, not before. */
  lemma DoneAtLast(e: Emission)
    requires EmissionOk(e) && e.synchronous
    ensures e.done <==> forall i :: 0 <= i < |e.finished| ==> e.finished[i]
  {
    PendingZero(e.finished);
  }

  /** The completion callbacks called and still to be called, in that order. */
  function Called(e: Emission): seq<nat> { e.completed + e.callbacks }

  /** The exit callbacks called and still to be called. */
  function CalledOnExit(e: Emission): seq<nat> { e.left + e.exitCallbacks }

  lemma FinishCalls(e: Emission, i: nat, r: Result)
    requires i < |e.finished| == |e.results| == |e.started|
    ensures Called(Finish(e, i, r)) == Called(e) && CalledOnExit(Finish(e, i, r)) == CalledOnExit(e)
  {
  }

  lemma ExitCalls(e: Emission)
    ensures Called(Exit(e)) == Called(e) && CalledOnExit(Exit(e)) == CalledOnExit(e)
  {
  }

  lemma OnCompleteCalls(e: Emission, fn: nat)
    requires EmissionOk(e)
    ensures Called(OnComplete(e, fn)) == Called(e) + [fn] && CalledOnExit(OnComplete(e, fn)) == CalledOnExit(e)
  {
    assert e.completed + (e.callbacks + [fn]) == Called(e) + [fn];
    assert e.callbacks == [] ==> Called(e) == e.completed;
  }

  lemma OnExitCalls(e: Emission, fn: nat)
    requires EmissionOk(e)
    ensures Called(OnExit(e, fn)) == Called(e) && CalledOnExit(OnExit(e, fn)) == CalledOnExit(e) + [fn]
  {
    assert e.left + (e.exitCallbacks + [fn]) == CalledOnExit(e) + [fn];
    assert e.exitCallbacks == [] ==> CalledOnExit(e) == e.left;
  }

  // ---- connection ---------------------------------------------------------------------------------------

  datatype Connection = Connection(tasks: set<nat>, closed: bool, done: bool)

  function Release(c: Connection, t: nat): Connection {
    var d := c.(tasks := c.tasks - {t});
    if d.closed && d.tasks == {} then d.(done := true) else d
  }

  function Acquired(c: Connection, t: nat): Connection {
    if c.closed then c else c.(tasks := c.tasks + {t})
  }

  function Closed(c: Connection): Connection {
    var d := c.(closed := true);
    if d.tasks == {} then d.(done := true) else d
  }

  /** The connection is done exactly when it is closed and nothing runs through it. */
  predicate ConnectionOk(c: Connection) { c.done <==> c.closed && c.tasks == {} }

  class ConnectionObject {
    var tasks: set<nat>
    var closed: bool
    var done: bool
    var disconnected: bool
    var cancels: set<nat>
    const cancelPending: bool

    function View(): Connection
      reads this
    {
      Connection(tasks, closed, done)
    }

    constructor (cancelPending: bool)
      ensures View() == Connection({}, false, false) && ConnectionOk(View()) && this.cancelPending == cancelPending
              && cancels == {}
    {
      this.cancelPending := cancelPending;
      tasks, closed, done, disconnected, cancels := {}, false, false, false, {};
    }

    method Acquire(t: nat) returns (owned: bool)
      requires t !in tasks
      modifies `tasks
      ensures View() == Acquired(old(View()), t) && (owned <==> !closed)
    {
      owned := !closed;
      if owned { tasks := tasks + {t}; }
    }

    method ReleaseTask(t: nat)
      modifies `tasks, `done
      ensures View() == Release(old(View()), t)
    {
      tasks := tasks - {t};
      if closed && tasks == {} { done := true; }
    }

    method BeginClose()
      modifies this
      ensures View() == Closed(old(View())) && disconnected
      ensures cancels == if cancelPending then old(cancels) + tasks else old(cancels)
    {
      disconnected := true;
      closed := true;
      if cancelPending { cancels := cancels + tasks; }
      if tasks == {} { done := true; }
    }
  }

  /** However its operations interleave, the connection stays accounted for, done exactly when
      it is closed without tasks: a task gets in while it is open, closing lets in no more and
      keeps those inside until each is released. Once it is done nothing changes it. */
  lemma ConnectionKept(c: Connection, t: nat)
    requires ConnectionOk(c)
    ensures ConnectionOk(Acquired(c, t)) && ConnectionOk(Release(c, t)) && ConnectionOk(Closed(c))
    ensures c.done <==> c.closed && c.tasks == {}
    ensures Acquired(c, t).closed == c.closed && Acquired(c, t).tasks == c.tasks + if c.closed then {} else {t}
    ensures Release(c, t).closed == c.closed && Release(c, t).tasks == c.tasks - {t}
    ensures Closed(c).closed && Closed(c).tasks == c.tasks
    ensures c.done ==> Acquired(c, t) == c && Release(c, t) == c && Closed(c) == c
  {
    if c.done { assert c.tasks - {t} == {}; }
  }
}
