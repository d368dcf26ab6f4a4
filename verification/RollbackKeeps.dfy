/** Which records and leases each step leaves, when a backup is available, and an edit with
    its rollback when nothing interferes. */
module RollbackKeeps {
  import opened Options
  import opened RollbackStore
  import opened RollbackManager
  import opened RollbackRuns

  // ---- records ----------------------------------------------------------------------------

  /** A binding of a record: that of its scope. */
  function BindingOf(s: Store, r: Record): Option<Binding> {
    if r.scope < |s.heap| then Some(s.heap[r.scope].binding) else None
  }

  /** Forgetting a binding releases its records only, opening a session those of bindings that
      are not valid, and a commit the record that it restores. */
  ghost predicate Survives(w: World, step: Step, r: Record) {
    match step
    case ForgetBinding(b) => BindingOf(w.store, r) != Some(b)
    case OpenSession(_) => BindingOf(w.store, r).Some? && BindingOf(w.store, r).value in w.valid
    case Commit(_) => Restoring(w, step).Some? && r.id != Restoring(w, step).value.id
    case _ => true
  }

  ghost predicate RecordsLeft(w: World, step: Step, v: World) {
    forall k :: if k in w.store.records && Survives(w, step, w.store.records[k])
                then k in v.store.records && v.store.records[k] == w.store.records[k]
                else k !in v.store.records
  }

  lemma ForgetLeaves(s: Store, b: Binding, k: nat)
    requires Inv(s)
    ensures if k in s.records && BindingOf(s, s.records[k]) != Some(b)
            then k in Forget(s, b).records && Forget(s, b).records[k] == s.records[k]
            else k !in Forget(s, b).records
  {
    if k in s.records { assert RecordFiled(s.heap, s.scopes, s.records[k]); }
  }

  lemma OpenLeaves(s: Store, b: Binding, valid: set<Binding>, k: nat)
    requires Inv(s)
    ensures var t := Opened(s, b, valid).0;
            if k in s.records && BindingOf(s, s.records[k]).Some? && BindingOf(s, s.records[k]).value in valid
            then k in t.records && t.records[k] == s.records[k]
            else k !in t.records
  {
    if k in s.records { assert RecordFiled(s.heap, s.scopes, s.records[k]); }
  }

  lemma OtherKeepsStore(w: World, step: Step, v: World, rev: string -> string)
    requires Next(w, step, v, rev)
    requires !step.ForgetBinding? && !step.OpenSession? && !step.PublishEdit? && !step.Commit?
    ensures v.store == w.store
  {
    hide Inv, CanCommit, CanPublish, LoadedBy;
  }

  lemma ForgetStore(w: World, b: Binding, v: World, rev: string -> string)
    requires Next(w, ForgetBinding(b), v, rev)
    ensures Inv(w.store) && v.store == Forget(w.store, b)
  {
    hide Inv, Forget;
  }

  lemma OpenStore(w: World, b: Binding, v: World, rev: string -> string)
    requires Next(w, OpenSession(b), v, rev)
    ensures Inv(w.store) && v.store == Opened(w.store, b, w.valid).0
  {
    hide Inv, Opened;
  }

  lemma ForgetLeft(w: World, b: Binding, v: World)
    requires Inv(w.store) && v.store == Forget(w.store, b)
    ensures RecordsLeft(w, ForgetBinding(b), v)
  {
    hide Forget, Inv;
    forall k { ForgetLeaves(w.store, b, k); }
  }

  lemma OpenLeft(w: World, b: Binding, v: World)
    requires Inv(w.store) && v.store == Opened(w.store, b, w.valid).0
    ensures RecordsLeft(w, OpenSession(b), v)
  {
    hide Opened, Inv;
    forall k { OpenLeaves(w.store, b, w.valid, k); }
  }

  lemma NextInv(w: World, step: Step, v: World, rev: string -> string)
    requires Next(w, step, v, rev)
    ensures Inv(w.store)
  {
    hide Inv, Enabled, After;
  }

  lemma CommitLeft(w: World, i: nat, v: World)
    requires Inv(w.store) && CanCommit(w, i) && v == Committed(w, i)
    ensures RecordsLeft(w, Commit(i), v)
  {
  }

  /** Every step but a publication leaves exactly the records that survive it. */
  lemma StepKeepsRecords(w: World, step: Step, v: World, rev: string -> string)
    requires Next(w, step, v, rev) && !step.PublishEdit?
    ensures RecordsLeft(w, step, v)
  {
    hide Stepped, Inv, RecordsLeft, CanCommit;
    match step
    case Commit(i) => NextInv(w, step, v, rev); StepCommits(w, step, v, rev); CommitLeft(w, i, v);
    case ForgetBinding(b) => ForgetStore(w, b, v, rev); ForgetLeft(w, b, v);
    case OpenSession(b) => OpenStore(w, b, v, rev); OpenLeft(w, b, v);
    case _ => OtherKeepsStore(w, step, v, rev); SameLeft(w, step, v);
  }

  lemma SameLeft(w: World, step: Step, v: World)
    requires v.store == w.store && !step.ForgetBinding? && !step.OpenSession? && !step.Commit?
    ensures RecordsLeft(w, step, v)
  {
  }

  // ---- publishing -----------------------------------------------------------------------------

  /** The records with that of an edit in place of the one for the same target. */
  function WithEdit(records: map<nat, Record>, r: Record): map<nat, Record> {
    Others(records, r.scope, r.target)[r.id := r]
  }

  function Others(records: map<nat, Record>, scope: nat, target: string): map<nat, Record> {
    map k | k in records && !(records[k].scope == scope && records[k].target == target) :: records[k]
  }

  lemma ReplacedRecords(s: Store, lease: nat, target: string)
    requires Inv(s) && lease < |s.heap|
    ensures var t := Replaced(s, lease, target);
            && t.records == Others(s.records, lease, target) && |t.heap| == |s.heap|
            && t.nextID == s.nextID && t.maxBytes == s.maxBytes && t.maxRecords == s.maxRecords
  {
    forall k | k in s.records ensures RecordFiled(s.heap, s.scopes, s.records[k]) && s.records[k].id == k {}
    if target in s.heap[lease].files { assert FileRecorded(s.records, lease, target, s.heap[lease].files[target]); }
  }

  lemma EnteredRecords(s: Store, lease: nat, e: Edited)
    requires Inv(s) && LeaseCurrent(s, lease)
    ensures Entered(s, lease, e).records == WithEdit(s.records, RecordOf(e, s.nextID + 1, lease))
    ensures Entered(s, lease, e).nextID == s.nextID + 1
    ensures Entered(s, lease, e).maxBytes == s.maxBytes && Entered(s, lease, e).maxRecords == s.maxRecords
  {
    hide Replaced, Others, Filed, Indexed;
    ReplacedRecords(s, lease, e.target);
  }

  /** A publication puts the edit's record in place of the one for the same target and lease,
      and then gives up the oldest, as few as the limits allow. */
  lemma PublishKeeps(s: Store, lease: nat, e: Edited) returns (cut: nat)
    requires Inv(s) && LeaseCurrent(s, lease)
    ensures var id := s.nextID + 1;
            var all, t := WithEdit(s.records, RecordOf(e, id, lease)), Published(s, lease, e);
            && t.records == Newer(all, cut) && RecordsFit(t.records, id, s.maxBytes, s.maxRecords)
            && CutNeeded(all, id, s.maxBytes, s.maxRecords, cut)
  {
    hide Newer, CutNeeded, Total, WithEdit, Entered;
    var t := Entered(s, lease, e);
    EnteredInv(s, lease, e);
    EnteredRecords(s, lease, e);
    EvictionLeavesNewest(t);
    cut := Cut(t);
    EvictedLimits(t);
  }

  lemma {:induction false} EvictedLimits(s: Store)
    requires Inv(s)
    ensures var t := Evicted(s); RecordsFit(t.records, s.nextID, s.maxBytes, s.maxRecords)
    decreases |s.records.Keys|
  {
    if !Fits(s) {
      var k, t := EvictOne(s);
      EvictedLimits(t);
    }
  }

  lemma {:induction false} TotalOne(records: map<nat, Record>, id: nat, n: nat)
    requires forall k :: k in records <==> k == id
    ensures Total(records, n) == if 0 < id <= n then |records[id].before| else 0
  {
    if n > 0 { TotalOne(records, id, n - 1); }
  }

  lemma {:induction false} TotalHas(records: map<nat, Record>, id: nat, n: nat)
    requires id in records && 0 < id <= n
    ensures |records[id].before| <= Total(records, n)
  {
    if id < n { TotalHas(records, id, n - 1); }
  }

  /** A published backup is available exactly when by itself it is within the limits. */
  lemma {:induction false} PublishAvailable(s: Store, lease: nat, e: Edited)
    requires Inv(s) && LeaseCurrent(s, lease)
    ensures s.nextID + 1 in Published(s, lease, e).records <==> |e.before| <= s.maxBytes && 1 <= s.maxRecords
  {
    var id, all, t := s.nextID + 1, WithEdit(s.records, RecordOf(e, s.nextID + 1, lease)), Published(s, lease, e);
    var cut := PublishKeeps(s, lease, e);
    var last := Newer(all, s.nextID);
    assert forall k :: k in s.records ==> k <= s.nextID;
    assert forall k :: k in last <==> k == id;
    TotalOne(last, id, id);
    assert last.Keys == {id};
    if id in t.records {
      TotalHas(t.records, id, id);
      SubsetSize({id}, t.records.Keys);
    } else {
      assert cut > s.nextID;
      assert !RecordsFit(last, id, s.maxBytes, s.maxRecords);
    }
  }

  // ---- leases ------------------------------------------------------------------------------------

  /** A lease loses its binding when that is forgotten, or is found not to be valid when a
      session is opened, and at no other step. */
  ghost predicate LeaseLeft(w: World, step: Step, l: nat) {
    && LeaseCurrent(w.store, l)
    && match step
       case ForgetBinding(b) => w.store.heap[l].binding != b
       case OpenSession(_) => w.store.heap[l].binding in w.valid
       case _ => true
  }

  lemma WithoutKeepsLeases(s: Store, r: Record, l: nat)
    requires r.scope < |s.heap| && l < |s.heap|
    ensures LeaseCurrent(Without(s, r), l) <==> LeaseCurrent(s, l)
  {
  }

  lemma {:induction false} EvictedKeepsLeases(s: Store, l: nat)
    requires Inv(s) && l < |s.heap|
    ensures l < |Evicted(s).heap| && (LeaseCurrent(Evicted(s), l) <==> LeaseCurrent(s, l))
    decreases |s.records.Keys|
  {
    if !Fits(s) {
      var k, t := EvictOne(s);
      EvictedKeepsLeases(t, l);
      WithoutKeepsLeases(s, s.records[k], l);
    }
  }

  lemma PublishKeepsLeases(s: Store, lease: nat, e: Edited, l: nat)
    requires Inv(s) && LeaseCurrent(s, lease) && l < |s.heap|
    ensures LeaseCurrent(Published(s, lease, e), l) <==> LeaseCurrent(s, l)
  {
    EnteredInv(s, lease, e);
    EvictedKeepsLeases(Entered(s, lease, e), l);
  }

  lemma OpenKeepsLeases(s: Store, b: Binding, valid: set<Binding>, l: nat)
    requires ScopesNamed(s.heap, s.scopes) && l < |s.heap|
    ensures LeaseCurrent(Opened(s, b, valid).0, l) <==> LeaseCurrent(s, l) && s.heap[l].binding in valid
  {
    hide Total;
  }

  lemma StepKeepsLeases(w: World, step: Step, v: World, rev: string -> string, l: nat)
    requires WorldOk(w, rev) && Next(w, step, v, rev) && l < |w.store.heap|
    ensures LeaseCurrent(v.store, l) <==> LeaseLeft(w, step, l)
  {
    if step.Commit? {
      hide Stepped, HistoryOk;
      StepCommits(w, step, v, rev);
    } else if step.ForgetBinding? {
      hide HistoryOk;
    } else if step.OpenSession? {
      hide HistoryOk, Opened;
      OpenKeepsLeases(w.store, step.binding, w.valid, l);
    } else if step.PublishEdit? {
      hide HistoryOk, Stepped, Published;
      StepLogs(w, step, v, rev);
      var txn := w.txns[step.txn];
      PublishKeepsLeases(w.store, txn.lease, EditedOf(txn, txn.phase.swap, rev), l);
    } else {
      hide HistoryOk, Stepped;
      OtherKeepsStore(w, step, v, rev);
    }
  }

  // ---- locks -----------------------------------------------------------------------------------------

  predicate Begins(step: Step) { step.BeginEdit? || step.BeginRollback? }

  predicate Ends(step: Step) { step.PublishEdit? || step.Commit? || step.Abandon? }

  /** A call holds its target from the step that begins it to the one that ends it: it begins
      only while no call holds that target, and no other step gives up a target or changes it. */
  lemma StepKeepsLocks(w: World, step: Step, v: World, rev: string -> string)
    requires Next(w, step, v, rev)
    ensures Begins(step) ==>
              && (forall k :: k in w.txns ==> w.txns[k].target != step.target)
              && v.txns.Keys == w.txns.Keys + {step.txn} && step.txn !in w.txns
              && v.txns[step.txn].target == step.target && v.txns[step.txn].lease == step.lease
              && v.txns[step.txn].path == step.path
    ensures Ends(step) ==> v.txns.Keys == w.txns.Keys - {step.txn}
    ensures !Begins(step) && !Ends(step) ==> v.txns.Keys == w.txns.Keys
    ensures forall k :: k in w.txns && k in v.txns ==>
              && v.txns[k].target == w.txns[k].target && v.txns[k].lease == w.txns[k].lease
              && v.txns[k].path == w.txns[k].path
  {
    hide Inv, Published, Opened, Forget, LoadedBy, TargetCheck, FileCheck, LeaseValid, LeaseCurrent;
  }

  // ---- an edit that nothing interferes with ----------------------------------------------------------

  lemma BeginEditPossible(w: World, i: nat, lease: nat, path: string, t: string, v: World, rev: string -> string)
    requires Inv(w.store) && CanBegin(w, i, lease, t) && v == w.(txns := w.txns[i := Txn(lease, path, t, EditBegun)])
    ensures Next(w, BeginEdit(i, lease, path, t), v, rev)
  {
    hide Inv, Published, Opened, Forget;
  }

  lemma ReadPossible(w: World, i: nat, read: Option<string>, v: World, rev: string -> string)
    requires Inv(w.store) && i in w.txns && w.txns[i].phase.EditBegun? && v == Advance(w, i, EditRead(read))
    ensures Next(w, ReadFile(i, read), v, rev)
  {
    hide Inv, Published, Opened, Forget;
  }

  lemma InspectPossible(w: World, i: nat, via: string, v: World, rev: string -> string)
    requires Inv(w.store) && CanInspect(w, i, via, rev) && v == Inspected(w, i, via)
    ensures Next(w, InspectFile(i, via), v, rev)
  {
    hide Inv, Published, Opened, Forget;
  }

  lemma WritePossible(w: World, i: nat, after: string, v: World, rev: string -> string)
    requires Inv(w.store) && CanWrite(w, i) && v == Written(w, i, after)
    ensures Next(w, WriteFile(i, after), v, rev)
  {
    hide Inv, Published, Opened, Forget;
  }

  lemma PublishPossible(w: World, i: nat, v: World, rev: string -> string)
    requires Inv(w.store) && CanPublish(w, i) && v == PublishedBy(w, i, rev)
    ensures Next(w, PublishEdit(i), v, rev)
  {
    hide Inv, Published, Opened, Forget;
  }

  /** The target has its new bytes, all other files are as they were, the call is over, and
      the lease is still in force. */
  ghost predicate EditedBy(w: World, lease: nat, t: string, after: string, v: World) {
    && t in v.files && v.files[t].bytes == after
    && (forall u :: u != t ==> BytesOf(v.files, u) == BytesOf(w.files, u))
    && v.txns == w.txns && v.links == w.links && v.valid == w.valid && InForce(v, lease)
    && v.store.nextID == w.store.nextID + 1
    && v.store.maxBytes == w.store.maxBytes && v.store.maxRecords == w.store.maxRecords
  }

  /** The record of the edit: what was there before, and what it left. */
  ghost predicate RecordedBy(w: World, lease: nat, path: string, t: string, after: string, v: World,
                             rev: string -> string)
  {
    && lease < |v.store.heap| && t in v.store.heap[lease].files
    && var r := v.store.heap[lease].files[t];
       && r.path == path && r.id == v.store.nextID && r.afterSize == |after| && r.revisionAfter == rev(after)
       && (r.created <==> t !in w.files) && (t in w.files ==> r.before == w.files[t].bytes)
  }

  ghost predicate PathKept(w: World, lease: nat, path: string, t: string, v: World) {
    lease < |w.store.heap| && lease < |v.store.heap|
    && (PathStays(w.store.heap[lease].files, path, t) ==> PathStays(v.store.heap[lease].files, path, t))
  }

  /** Through a lease in force, with the target not locked and the path leading to the file
      that is there, the steps of an edit are possible in turn; they write the file, and record
      what was there if that is within the limits. */
  lemma EditSucceeds(w: World, i: nat, lease: nat, path: string, t: string, after: string, rev: string -> string)
    returns (begun: World, read: World, inspected: World, written: World, done: World)
    requires WorldOk(w, rev) && i !in w.txns && InForce(w, lease) && Unlocked(w.txns, t)
    requires t in w.files ==> Leads(w, path, t)
    ensures Next(w, BeginEdit(i, lease, path, t), begun, rev)
    ensures Next(begun, ReadFile(i, BytesOf(w.files, t)), read, rev)
    ensures Next(read, InspectFile(i, t), inspected, rev) && Next(inspected, WriteFile(i, after), written, rev)
    ensures Next(written, PublishEdit(i), done, rev)
    ensures EditedBy(w, lease, t, after, done)
    ensures (t in w.files ==> |w.files[t].bytes| <= w.store.maxBytes) && 1 <= w.store.maxRecords
            ==> RecordedBy(w, lease, path, t, after, done, rev)
    ensures Inv(done.store) && PathKept(w, lease, path, t, done)
  {
    hide Stepped, HistoryOk, Inv, PublishedBy, EditedBy, RecordedBy, PathKept;
    begun := w.(txns := w.txns[i := Txn(lease, path, t, EditBegun)]);
    BeginEditPossible(w, i, lease, path, t, begun, rev);
    read := Advance(begun, i, EditRead(BytesOf(w.files, t)));
    ReadPossible(begun, i, BytesOf(w.files, t), read, rev);
    inspected := Inspected(read, i, t);
    InspectPossible(read, i, t, inspected, rev);
    written := Written(inspected, i, after);
    WritePossible(inspected, i, after, written, rev);
    done := PublishedBy(written, i, rev);
    PublishPossible(written, i, done, rev);
    EditDone(w, i, lease, path, t, after, written, done, rev);
  }

  /** The world after the write, and after the publication. */
  ghost predicate WriteDone(w: World, i: nat, lease: nat, path: string, t: string, after: string, written: World) {
    written == w.(files := w.files[t := File(after, w.clock)], clock := w.clock + 1,
                  txns := w.txns[i := Txn(lease, path, t,
                                          EditWrote(Swap(BytesOf(w.files, t), BytesOf(w.files, t), after)))])
  }

  ghost function EditOf(w: World, lease: nat, path: string, t: string, after: string, rev: string -> string): Edited {
    var read := BytesOf(w.files, t);
    EditedOf(Txn(lease, path, t, EditBegun), Swap(read, read, after), rev)
  }

  lemma StoreDone(w: World, i: nat, lease: nat, path: string, t: string, after: string, written: World, done: World,
                  rev: string -> string)
    requires Inv(w.store) && i !in w.txns && LeaseCurrent(w.store, lease)
    requires WriteDone(w, i, lease, path, t, after, written)
    requires CanPublish(written, i) && done == PublishedBy(written, i, rev)
    ensures done.store == Published(w.store, lease, EditOf(w, lease, path, t, after, rev))
    ensures done.txns == w.txns && done.files == written.files && done.links == w.links && done.valid == w.valid
  {
    hide Published, Inv;
  }

  lemma EditDone(w: World, i: nat, lease: nat, path: string, t: string, after: string, written: World, done: World,
                 rev: string -> string)
    requires Inv(w.store) && i !in w.txns && InForce(w, lease) && WriteDone(w, i, lease, path, t, after, written)
    requires CanPublish(written, i) && done == PublishedBy(written, i, rev)
    ensures EditedBy(w, lease, t, after, done)
    ensures (t in w.files ==> |w.files[t].bytes| <= w.store.maxBytes) && 1 <= w.store.maxRecords
            ==> RecordedBy(w, lease, path, t, after, done, rev)
    ensures Inv(done.store) && PathKept(w, lease, path, t, done)
  {
    hide Published, Inv, PublishedBy, RecordedBy, PathStays;
    var e := EditOf(w, lease, path, t, after, rev);
    StoreDone(w, i, lease, path, t, after, written, done, rev);
    PublishedInv(w.store, lease, e);
    PublishKeepsLeases(w.store, lease, e, lease);
    PublishLimits(w.store, lease, e);
    PublishStore(w.store, lease, e);
    RecordDone(w, lease, path, t, after, done, rev);
    if PathStays(w.store.heap[lease].files, path, t) { PathStaysPublished(w.store, lease, e, done.store); }
  }

  lemma RecordDone(w: World, lease: nat, path: string, t: string, after: string, done: World, rev: string -> string)
    requires Inv(w.store) && LeaseCurrent(w.store, lease) && Inv(done.store)
    requires done.store == Published(w.store, lease, EditOf(w, lease, path, t, after, rev))
    ensures (t in w.files ==> |w.files[t].bytes| <= w.store.maxBytes) && 1 <= w.store.maxRecords
            ==> RecordedBy(w, lease, path, t, after, done, rev)
  {
    hide Published, Inv;
    var e := EditOf(w, lease, path, t, after, rev);
    PublishStore(w.store, lease, e);
    PublishAvailable(w.store, lease, e);
    if w.store.nextID + 1 in done.store.records { FiledAs(done.store, w.store.nextID + 1); }
  }

  /** The same limits, and the same scopes with their bindings. */
  ghost predicate SameBindings(s: Store, t: Store) {
    && t.maxBytes == s.maxBytes && t.maxRecords == s.maxRecords && t.scopes == s.scopes
    && |t.heap| == |s.heap| && forall l :: 0 <= l < |s.heap| ==> t.heap[l].binding == s.heap[l].binding
  }

  lemma PublishLimits(s: Store, lease: nat, e: Edited)
    requires Inv(s) && LeaseCurrent(s, lease)
    ensures SameBindings(s, Published(s, lease, e))
  {
    EnteredInv(s, lease, e);
    EnteredSame(s, lease, e);
    EvictedSame(Entered(s, lease, e));
  }

  lemma EnteredSame(s: Store, lease: nat, e: Edited)
    requires Inv(s) && lease < |s.heap|
    ensures SameBindings(s, Entered(s, lease, e))
  {
    var files := s.heap[lease].files;
    if e.target in files { assert FileRecorded(s.records, lease, e.target, files[e.target]); }
  }

  lemma WithoutSame(s: Store, r: Record)
    requires r.scope < |s.heap|
    ensures SameBindings(s, Without(s, r))
  {
  }

  lemma SameStill(s: Store, t: Store, u: Store)
    requires SameBindings(s, t) && SameBindings(t, u)
    ensures SameBindings(s, u)
  {
  }

  lemma {:induction false} EvictedSame(s: Store)
    requires Inv(s)
    ensures SameBindings(s, Evicted(s))
    decreases |s.records.Keys|
  {
    if !Fits(s) {
      hide SameBindings, Inv;
      var k, t := EvictOne(s);
      WithoutSame(s, s.records[k]);
      EvictedSame(t);
      SameStill(s, t, Evicted(t));
    }
  }

  /** Publishing moves nothing that was recorded under the path. */
  lemma {:induction false} PathStaysPublished(s: Store, lease: nat, e: Edited, t: Store)
    requires Inv(s) && LeaseCurrent(s, lease) && PathStays(s.heap[lease].files, e.path, e.target)
    requires t == Published(s, lease, e) && lease < |t.heap|
    ensures PathStays(t.heap[lease].files, e.path, e.target)
  {
    var cut := PublishKeeps(s, lease, e);
    PublishedInv(s, lease, e);
    forall x | x in t.heap[lease].files && t.heap[lease].files[x].path == e.path
      ensures t.heap[lease].files[x].target == e.target
    {
      var r := t.heap[lease].files[x];
      assert FileRecorded(t.records, lease, x, r);
      if r.id in s.records && s.records[r.id] == r { assert RecordFiled(s.heap, s.scopes, r); }
    }
  }

  /** An edit and then its rollback, with nothing between: every file is as it was. */
  lemma EditAndRollback(w: World, i: nat, lease: nat, path: string, t: string, after: string, rev: string -> string)
    returns (edited: World, done: World)
    requires WorldOk(w, rev) && i !in w.txns && InForce(w, lease) && Unlocked(w.txns, t) && Leads(w, path, t)
    requires PathStays(w.store.heap[lease].files, path, t)
    requires (t in w.files ==> |w.files[t].bytes| <= w.store.maxBytes) && 1 <= w.store.maxRecords
    ensures EditedBy(w, lease, t, after, edited) && RestoredBy(edited, lease, t, done)
    ensures forall u :: BytesOf(done.files, u) == BytesOf(w.files, u)
  {
    hide Stepped, HistoryOk, Inv, Restorable, PathStays;
    var begun, read, inspected, written;
    begun, read, inspected, written, edited := EditSucceeds(w, i, lease, path, t, after, rev);
    EditLeavesRestorable(w, i, lease, path, t, after, edited, rev);
    var b, l, c;
    b, l, c, done := RollbackSucceeds(edited, i, lease, path, t, rev);
  }

  lemma EditLeavesRestorable(w: World, i: nat, lease: nat, path: string, t: string, after: string, v: World,
                             rev: string -> string)
    requires EditedBy(w, lease, t, after, v) && RecordedBy(w, lease, path, t, after, v, rev)
    requires i !in w.txns && Unlocked(w.txns, t) && Leads(w, path, t) && PathStays(v.store.heap[lease].files, path, t)
    ensures Restorable(v, lease, path, t, rev)
  {
  }
}
