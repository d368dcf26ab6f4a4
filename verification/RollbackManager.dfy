/** The rollback manager: the object whose methods keep the store. */
module RollbackManager {
  import opened Options
  import opened RollbackStore

  datatype RollbackError = Expired | NotFound | FileChanged

  /** The scope's record for another target under the same path. */
  predicate Moved(files: map<string, Record>, path: string, target: string) {
    exists t :: t in files && files[t].path == path && files[t].target != target
  }

  /** What the path resolves to must be the record's target. */
  function TargetCheck(links: map<string, string>, path: string, target: string): Option<RollbackError> {
    if path !in links then Some(NotFound) else if links[path] != target then Some(FileChanged) else None
  }

  /** The file must still be what the edit left. */
  function FileCheck(file: Option<string>, revision: string -> string, r: Record): Option<RollbackError> {
    if file.None? then Some(NotFound)
    else if |file.value| != r.afterSize || revision(file.value) != r.revisionAfter then Some(FileChanged)
    else None
  }

  /** Which record a rollback may go on with. */
  ghost function Loaded(s: Store, valid: set<Binding>, lease: nat, path: string, target: string, expectedID: nat,
                        links: map<string, string>, file: Option<string>, revision: string -> string)
    : Result<Record, RollbackError>
  {
    if !LeaseValid(s, lease, valid) then Err(Expired)
    else
      var files := s.heap[lease].files;
      if Moved(files, path, target) then Err(FileChanged)
      else if target !in files || (expectedID != 0 && files[target].id != expectedID) then Err(NotFound)
      else
        var r := files[target];
        if TargetCheck(links, path, r.target).Some? then Err(TargetCheck(links, path, r.target).value)
        else if TargetCheck(links, r.path, r.target).Some? then Err(TargetCheck(links, r.path, r.target).value)
        else if FileCheck(file, revision, r).Some? then Err(FileCheck(file, revision, r).value)
        else Ok(r)
  }

  class Manager {
    var heap: seq<Scope>
    var scopes: map<Binding, nat>
    var records: map<nat, Record>
    var nextID: nat
    var bytes: int
    const maxBytes: nat
    const maxRecords: nat

    function View(): Store
      reads this
    {
      Store(heap, scopes, records, nextID, bytes, maxBytes, maxRecords)
    }

    constructor (maxBytes: nat, maxRecords: nat)
      ensures Inv(View()) && Fits(View()) && View() == Store([], map[], map[], 0, 0, maxBytes, maxRecords)
    {
      this.maxBytes, this.maxRecords := maxBytes, maxRecords;
      heap, scopes, records, nextID, bytes := [], map[], map[], 0, 0;
    }

    method RemoveLocked(r: Record)
      requires r.scope < |heap|
      modifies `heap, `records, `bytes
      ensures View() == Without(old(View()), r)
    {
      records := records - {r.id};
      heap := heap[r.scope := heap[r.scope].(files := heap[r.scope].files - {r.target})];
      bytes := bytes - |r.before|;
    }

    /** The loop over a scope's files, in any order. */
    method RemoveAll(i: nat)
      requires Inv(View()) && i < |heap|
      modifies `heap, `records, `bytes
      ensures View() == Cleared(old(View()), i)
    {
      ghost var start := View();
      while heap[i].files != map[]
        invariant Inv(View()) && i < |heap|
        invariant Cleared(View(), i) == Cleared(start, i)
        decreases |heap[i].files|
      {
        var t :| t in heap[i].files;
        var r := heap[i].files[t];
        assert FileRecorded(records, i, t, r);
        WithoutInv(View(), r);
        ClearedSame(View(), r);
        FewerFiles(heap[i].files, t);
        RemoveLocked(r);
      }
      NothingToClear(View(), i);
    }

    method ForgetLocked(b: Binding)
      requires Inv(View())
      modifies `heap, `records, `bytes, `scopes
      ensures View() == Forget(old(View()), b) && Inv(View())
    {
      ForgetInv(View(), b);
      if b !in scopes { return; }
      RemoveAll(scopes[b]);
      scopes := scopes - {b};
    }

    /** The loop over the bindings, in any order; it forgets those that are not valid. */
    method Reclaim(valid: set<Binding>)
      requires Inv(View())
      modifies `heap, `records, `bytes, `scopes
      ensures View() == Reclaimed(old(View()), valid) && Inv(View())
    {
      ghost var start := View();
      var todo := scopes.Keys;
      ReclaimNothing(start, valid + todo);
      while todo != {}
        invariant Inv(View()) && View() == Reclaimed(start, valid + todo)
        decreases |todo|
      {
        var b :| b in todo;
        if b !in valid {
          ReclaimStep(start, valid + (todo - {b}), b);
          assert valid + (todo - {b}) + {b} == valid + todo;
          ForgetLocked(b);
        } else {
          assert valid + (todo - {b}) == valid + todo;
        }
        todo := todo - {b};
      }
      assert valid + {} == valid;
    }

    method Session(b: Option<Binding>, valid: set<Binding>) returns (lease: Option<nat>)
      requires Inv(View())
      modifies `heap, `records, `bytes, `scopes
      ensures Inv(View())
      ensures b.None? || b.value !in valid ==> lease.None? && View() == old(View())
      ensures b.Some? && b.value in valid ==>
                && Opened(old(View()), b.value, valid) == (View(), if lease.Some? then lease.value else 0)
                && lease.Some?
                && LeaseValid(View(), lease.value, valid)
    {
      if b.None? || b.value !in valid { return None; }
      OpenedInv(View(), b.value, valid);
      Reclaim(valid);
      if b.value !in scopes {
        scopes := scopes[b.value := |heap|];
        heap := heap + [Scope(b.value, map[])];
      }
      lease := Some(scopes[b.value]);
    }

    method FindOldest() returns (oldest: Record)
      requires Inv(View()) && !Fits(View())
      ensures Oldest(View()) in records && oldest == records[Oldest(View())]
    {
      HasOldest(View());
      oldest := Smallest(records);
    }

    method Evict() returns (evicted: nat)
      requires Inv(View())
      modifies `heap, `records, `bytes
      ensures View() == Evicted(old(View())) && |records.Keys| + evicted == |old(records).Keys|
    {
      ghost var start := View();
      evicted := 0;
      while bytes > maxBytes || |records.Keys| > maxRecords
        invariant Inv(View()) && Evicted(View()) == Evicted(start)
        invariant |records.Keys| + evicted == |start.records.Keys|
        decreases |records.Keys|
      {
        var oldest := FindOldest();
        WithoutInv(View(), oldest);
        FewerRecords(records, oldest.id);
        RemoveLocked(oldest);
        evicted := evicted + 1;
      }
    }

    method DropPrevious(lease: nat, target: string)
      requires Inv(View()) && lease < |heap|
      modifies `heap, `records, `bytes
      ensures View() == Replaced(old(View()), lease, target)
    {
      if target in heap[lease].files {
        assert FileRecorded(records, lease, target, heap[lease].files[target]);
        RemoveLocked(heap[lease].files[target]);
      }
    }

    method Insert(record: Record)
      requires record.scope < |heap|
      modifies `heap, `records, `bytes, `nextID
      ensures View() == Added(old(View()), record)
    {
      nextID := record.id;
      records := records[record.id := record];
      heap := heap[record.scope := heap[record.scope].(files := heap[record.scope].files[record.target := record])];
      bytes := bytes + |record.before|;
    }

    method Enter(lease: nat, e: Edited) returns (record: Record)
      requires Inv(View()) && lease < |heap|
      modifies `heap, `records, `bytes, `nextID
      ensures View() == Entered(old(View()), lease, e) && record == RecordOf(e, nextID, lease)
    {
      DropPrevious(lease, e.target);
      record := RecordOf(e, nextID + 1, lease);
      Insert(record);
    }

    /** What editFile does once the write has succeeded. */
    method Publish(lease: nat, e: Edited, valid: set<Binding>) returns (available: bool, evicted: nat)
      requires Inv(View()) && lease < |heap|
      modifies `heap, `records, `bytes, `nextID
      ensures !LeaseValid(old(View()), lease, valid) ==> View() == old(View()) && !available && evicted == 0
      ensures LeaseValid(old(View()), lease, valid) ==>
                && View() == Published(old(View()), lease, e) && (available <==> nextID in records)
                && |records.Keys| + evicted == |Entered(old(View()), lease, e).records.Keys|
    {
      var b := heap[lease].binding;
      if b !in valid || b !in scopes || scopes[b] != lease { return false, 0; }
      EnteredInv(View(), lease, e);
      var record := Enter(lease, e);
      EvictedKept(View(), record.id);
      evicted := Evict();
      available := record.id in records && records[record.id] == record;
    }

    /** The loop over the scope's files that looks for the path under another target. */
    method LooksMoved(lease: nat, path: string, target: string) returns (moved: bool)
      requires lease < |heap|
      ensures moved <==> Moved(heap[lease].files, path, target)
    {
      var files := heap[lease].files;
      var todo := files.Keys;
      while todo != {}
        invariant todo <= files.Keys
        invariant forall t :: t in files && t !in todo ==> !(files[t].path == path && files[t].target != target)
        decreases |todo|
      {
        var t :| t in todo;
        if files[t].path == path && files[t].target != target { return true; }
        todo := todo - {t};
      }
      moved := false;
    }

    method LoadRecord(lease: nat, path: string, target: string, expectedID: nat, valid: set<Binding>,
                      links: map<string, string>, file: Option<string>, revision: string -> string)
      returns (r: Result<Record, RollbackError>)
      requires lease < |heap|
      ensures r == Loaded(View(), valid, lease, path, target, expectedID, links, file, revision)
    {
      var b := heap[lease].binding;
      if b !in valid || b !in scopes || scopes[b] != lease { return Err(Expired); }
      var moved := LooksMoved(lease, path, target);
      if moved { return Err(FileChanged); }
      if target !in heap[lease].files { return Err(NotFound); }
      var record := heap[lease].files[target];
      if expectedID != 0 && record.id != expectedID { return Err(NotFound); }
      var check := TargetCheck(links, path, record.target);
      if check.Some? { return Err(check.value); }
      check := TargetCheck(links, record.path, record.target);
      if check.Some? { return Err(check.value); }
      check := FileCheck(file, revision, record);
      if check.Some? { return Err(check.value); }
      r := Ok(record);
    }
  }

  /** A record that a rollback goes on with belongs to the lease and the target, is still
      held, both paths lead to the target, and the file has its edit's size and revision. */
  lemma LoadedRecord(s: Store, valid: set<Binding>, lease: nat, path: string, target: string, expectedID: nat,
                     links: map<string, string>, file: Option<string>, revision: string -> string)
    requires Inv(s)
    ensures var l := Loaded(s, valid, lease, path, target, expectedID, links, file, revision);
            l.Ok? ==>
              var r := l.value;
              && r.scope == lease && r.target == target && r.id in s.records && s.records[r.id] == r
              && (expectedID != 0 ==> r.id == expectedID)
              && path in links && links[path] == target && r.path in links && links[r.path] == target
              && file.Some? && |file.value| == r.afterSize && revision(file.value) == r.revisionAfter
  {
    if lease < |s.heap| && target in s.heap[lease].files {
      assert FileRecorded(s.records, lease, target, s.heap[lease].files[target]);
    }
  }

  /** Nothing under this path is recorded for another target. */
  predicate PathStays(files: map<string, Record>, path: string, target: string) {
    forall t :: t in files && files[t].path == path ==> files[t].target == target
  }

  /** A lease that has expired: its binding is not valid, or names another scope by now. */
  lemma ExpiredLease(s: Store, valid: set<Binding>, lease: nat, path: string, target: string, expectedID: nat,
                     links: map<string, string>, file: Option<string>, revision: string -> string)
    requires lease < |s.heap|
    ensures var b := s.heap[lease].binding;
            Loaded(s, valid, lease, path, target, expectedID, links, file, revision) == Err(Expired)
            <==> b !in valid || b !in s.scopes || s.scopes[b] != lease
  {
  }

  /** Through a lease in force the record is refused, in this order: when the path was
      recorded for another target, when there is no record or one with another ID, when a
      path leads nowhere or elsewhere, when the file is gone or is not what the edit left. */
  lemma RecordRefused(s: Store, valid: set<Binding>, lease: nat, path: string, target: string, expectedID: nat,
                      links: map<string, string>, file: Option<string>, revision: string -> string)
    requires Inv(s) && lease < |s.heap| && s.heap[lease].binding in valid
    requires s.heap[lease].binding in s.scopes && s.scopes[s.heap[lease].binding] == lease
    ensures var files := s.heap[lease].files;
            var l := Loaded(s, valid, lease, path, target, expectedID, links, file, revision);
            && (!PathStays(files, path, target) ==> l == Err(FileChanged))
            && (PathStays(files, path, target) && target !in files ==> l == Err(NotFound))
            && (PathStays(files, path, target) && target in files ==>
                  var r := files[target];
                  if expectedID != 0 && expectedID != r.id then l == Err(NotFound)
                  else if path !in links then l == Err(NotFound)
                  else if links[path] != target then l == Err(FileChanged)
                  else if r.path !in links then l == Err(NotFound)
                  else if links[r.path] != target then l == Err(FileChanged)
                  else if file.None? then l == Err(NotFound)
                  else if |file.value| != r.afterSize || revision(file.value) != r.revisionAfter
                  then l == Err(FileChanged)
                  else l == Ok(r))
  {
    var files := s.heap[lease].files;
    if target in files { assert FileRecorded(s.records, lease, target, files[target]); }
  }

  /** The record with the smallest ID, found in any order. */
  method Smallest(records: map<nat, Record>) returns (oldest: Record)
    requires records != map[] && forall k :: k in records ==> records[k].id == k
    ensures oldest.id in records && records[oldest.id] == oldest && forall k :: k in records ==> oldest.id <= k
  {
    var first :| first in records;
    oldest := records[first];
    var todo := records.Keys - {first};
    while todo != {}
      invariant todo <= records.Keys && oldest.id in records && records[oldest.id] == oldest
      invariant forall k :: k in records && k !in todo ==> oldest.id <= k
      decreases |todo|
    {
      var k :| k in todo;
      if records[k].id < oldest.id { oldest := records[k]; }
      todo := todo - {k};
    }
  }

  /** Removing one of a scope's records leaves the same to clear. */
  lemma ClearedSame(s: Store, r: Record)
    requires Inv(s) && r.id in s.records && s.records[r.id] == r && r.scope < |s.heap|
    ensures Cleared(Without(s, r), r.scope) == Cleared(s, r.scope)
  {
    assert Outside(s.records - {r.id}, r.scope) == Outside(s.records, r.scope);
  }

  lemma NothingToClear(s: Store, i: nat)
    requires Inv(s) && i < |s.heap| && s.heap[i].files == map[]
    ensures Cleared(s, i) == s
  {
    forall k | k in s.records ensures s.records[k].scope != i { assert RecordFiled(s.heap, s.scopes, s.records[k]); }
    assert Outside(s.records, i) == s.records;
  }

  lemma FewerFiles(files: map<string, Record>, t: string)
    requires t in files
    ensures |files - {t}| < |files|
  {
    assert (files - {t}).Keys == files.Keys - {t};
  }
}
