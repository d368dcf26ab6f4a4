/** Edits and rollbacks of several sessions interleaved with each other, with session
    switches and with writes from outside: what a rollback that succeeds has done. */
module RollbackRuns {
  import opened Options
  import opened RollbackStore
  import opened RollbackManager

  /** A file; every write gives it a stamp of its own, as identity, size, mode and time do. */
  datatype File = File(bytes: string, stamp: nat)

  /** What an edit read, what its write replaced, and what it wrote; no bytes, no file. */
  datatype Swap = Swap(read: Option<string>, found: Option<string>, after: string)

  datatype Phase =
    | EditBegun
    | EditRead(read: Option<string>)
    | EditInspected(original: Option<string>, stamp: Option<nat>)
    | EditWrote(swap: Swap)
    | RollbackBegun(expectedID: nat)
    | RollbackLoaded(record: Record)
    | RollbackConfirmed(confirmed: Record, seen: nat)

  /** A call in progress; it holds the lock of its target from the first step to the last. */
  datatype Txn = Txn(lease: nat, path: string, target: string, phase: Phase)

  /** `log` and `restored` are history: what the edit of each record did, by ID, and which
      records were restored. */
  datatype World = World(store: Store, valid: set<Binding>, files: map<string, File>, links: map<string, string>,
                         clock: nat, txns: map<nat, Txn>, log: map<nat, Swap>, restored: set<nat>)

  datatype Step =
    | Outside(target: string, bytes: Option<string>)
    | Relink(links: map<string, string>)
    | Revalidate(valid: set<Binding>)
    | ForgetBinding(binding: Binding)
    | OpenSession(binding: Binding)
    | BeginEdit(txn: nat, lease: nat, path: string, target: string)
    | ReadFile(txn: nat, read: Option<string>)
    | InspectFile(txn: nat, via: string)
    | WriteFile(txn: nat, after: string)
    | PublishEdit(txn: nat)
    | BeginRollback(txn: nat, lease: nat, path: string, target: string, expectedID: nat)
    | LoadRecord(txn: nat)
    | ConfirmFile(txn: nat)
    | Commit(txn: nat)
    | Abandon(txn: nat)

  function BytesOf(files: map<string, File>, t: string): Option<string> {
    if t in files then Some(files[t].bytes) else None
  }

  function StampOf(files: map<string, File>, t: string): Option<nat> {
    if t in files then Some(files[t].stamp) else None
  }

  /** The same content as far as size and revision tell. */
  predicate Alike(a: Option<string>, b: Option<string>, rev: string -> string) {
    if a.Some? && b.Some? then |a.value| == |b.value| && rev(a.value) == rev(b.value) else a == b
  }

  function Put(w: World, t: string, bytes: Option<string>): World {
    w.(files := if bytes.None? then w.files - {t} else w.files[t := File(bytes.value, w.clock)], clock := w.clock + 1)
  }

  function EditedOf(txn: Txn, swap: Swap, rev: string -> string): Edited {
    Edited(txn.path, txn.target, swap.read.None?, if swap.read.Some? then swap.read.value else "",
           if swap.read.Some? then rev(swap.read.value) else "", rev(swap.after), |swap.after|)
  }

  /** What a rollback puts in place of the file. */
  function Backup(r: Record): Option<string> { if r.created then None else Some(r.before) }

  predicate Unlocked(txns: map<nat, Txn>, t: string) { forall i :: i in txns ==> txns[i].target != t }

  // ---- when a step is possible -----------------------------------------------------------------

  predicate CanBegin(w: World, i: nat, lease: nat, t: string) {
    i !in w.txns && Unlocked(w.txns, t) && LeaseValid(w.store, lease, w.valid)
  }

  /** inspectFileState of an edit: the file that the path leads to just then is what the edit
      has read. The read itself may be older than the lock, and may have gone elsewhere. */
  predicate CanInspect(w: World, i: nat, via: string, rev: string -> string) {
    i in w.txns && w.txns[i].phase.EditRead? && Alike(w.txns[i].phase.read, BytesOf(w.files, via), rev)
  }

  /** The last look before the write: the lease is good, the path of a file that was there
      still leads to the target, and the target is the file that was inspected. */
  predicate CanWrite(w: World, i: nat) {
    && i in w.txns && w.txns[i].phase.EditInspected?
    && LeaseValid(w.store, w.txns[i].lease, w.valid)
    && (w.txns[i].phase.original.Some? ==> TargetCheck(w.links, w.txns[i].path, w.txns[i].target).None?)
    && StampOf(w.files, w.txns[i].target) == w.txns[i].phase.stamp
  }

  predicate CanPublish(w: World, i: nat) {
    i in w.txns && w.txns[i].phase.EditWrote? && LeaseValid(w.store, w.txns[i].lease, w.valid)
  }

  ghost function LoadedBy(w: World, txn: Txn, rev: string -> string): Result<Record, RollbackError>
    requires txn.phase.RollbackBegun?
  {
    Loaded(w.store, w.valid, txn.lease, txn.path, txn.target, txn.phase.expectedID, w.links,
           BytesOf(w.files, txn.target), rev)
  }

  ghost predicate CanLoad(w: World, i: nat, rev: string -> string) {
    i in w.txns && w.txns[i].phase.RollbackBegun? && LoadedBy(w, w.txns[i], rev).Ok?
  }

  /** inspectFileState of a rollback: the file is still what the recorded edit left. */
  predicate CanConfirm(w: World, i: nat, rev: string -> string) {
    && i in w.txns && w.txns[i].phase.RollbackLoaded?
    && FileCheck(BytesOf(w.files, w.txns[i].phase.record.target), rev, w.txns[i].phase.record).None?
  }

  /** The last look before the restore, with the manager locked; a held record has its scope. */
  predicate CanCommit(w: World, i: nat) {
    && i in w.txns && w.txns[i].phase.RollbackConfirmed?
    && var r := w.txns[i].phase.confirmed;
       && TargetCheck(w.links, w.txns[i].path, r.target).None? && TargetCheck(w.links, r.path, r.target).None?
       && StampOf(w.files, r.target) == Some(w.txns[i].phase.seen)
       && LeaseValid(w.store, w.txns[i].lease, w.valid)
       && r.id in w.store.records && w.store.records[r.id] == r && r.scope < |w.store.heap|
  }

  ghost predicate Enabled(w: World, step: Step, rev: string -> string) {
    match step
    case Outside(t, bytes) => true
    case Relink(links) => true
    case Revalidate(valid) => true
    case ForgetBinding(b) => true
    case OpenSession(b) => b in w.valid
    case BeginEdit(i, lease, path, t) => CanBegin(w, i, lease, t)
    case ReadFile(i, read) => i in w.txns && w.txns[i].phase.EditBegun?
    case InspectFile(i, via) => CanInspect(w, i, via, rev)
    case WriteFile(i, after) => CanWrite(w, i)
    case PublishEdit(i) => CanPublish(w, i)
    case BeginRollback(i, lease, path, t, id) => CanBegin(w, i, lease, t)
    case LoadRecord(i) => CanLoad(w, i, rev)
    case ConfirmFile(i) => CanConfirm(w, i, rev)
    case Commit(i) => CanCommit(w, i)
    case Abandon(i) => i in w.txns && (w.txns[i].phase.EditWrote? ==> !CanPublish(w, i))
  }

  function Advance(w: World, i: nat, phase: Phase): World
    requires i in w.txns
  {
    w.(txns := w.txns[i := w.txns[i].(phase := phase)])
  }

  function Inspected(w: World, i: nat, via: string): World
    requires i in w.txns && w.txns[i].phase.EditRead?
  {
    Advance(w, i, EditInspected(w.txns[i].phase.read, StampOf(w.files, via)))
  }

  function Written(w: World, i: nat, after: string): World
    requires i in w.txns && w.txns[i].phase.EditInspected?
  {
    var txn := w.txns[i];
    var swap := Swap(txn.phase.original, BytesOf(w.files, txn.target), after);
    Advance(Put(w, txn.target, Some(after)), i, EditWrote(swap))
  }

  function Confirmed(w: World, i: nat, rev: string -> string): World
    requires CanConfirm(w, i, rev)
  {
    var r := w.txns[i].phase.record;
    Advance(w, i, RollbackConfirmed(r, StampOf(w.files, r.target).value))
  }

  ghost function After(w: World, step: Step, rev: string -> string): World
    requires Inv(w.store) && Enabled(w, step, rev)
  {
    match step
    case Outside(t, bytes) => Put(w, t, bytes)
    case Relink(links) => w.(links := links)
    case Revalidate(valid) => w.(valid := valid)
    case ForgetBinding(b) => w.(store := Forget(w.store, b))
    case OpenSession(b) => w.(store := Opened(w.store, b, w.valid).0)
    case BeginEdit(i, lease, path, t) => w.(txns := w.txns[i := Txn(lease, path, t, EditBegun)])
    case ReadFile(i, read) => Advance(w, i, EditRead(read))
    case InspectFile(i, via) => Inspected(w, i, via)
    case WriteFile(i, after) => Written(w, i, after)
    case PublishEdit(i) => PublishedBy(w, i, rev)
    case BeginRollback(i, lease, path, t, id) => w.(txns := w.txns[i := Txn(lease, path, t, RollbackBegun(id))])
    case LoadRecord(i) => Advance(w, i, RollbackLoaded(LoadedBy(w, w.txns[i], rev).value))
    case ConfirmFile(i) => Confirmed(w, i, rev)
    case Commit(i) => Committed(w, i)
    case Abandon(i) => w.(txns := w.txns - {i})
  }

  /** The history with one edit more, under the ID that its record gets. */
  function LogAfter(w: World, i: nat): map<nat, Swap>
    requires i in w.txns && w.txns[i].phase.EditWrote?
  {
    w.log[w.store.nextID + 1 := w.txns[i].phase.swap]
  }

  ghost function StoreAfter(w: World, i: nat, rev: string -> string): Store
    requires Inv(w.store) && i in w.txns && w.txns[i].phase.EditWrote? && LeaseCurrent(w.store, w.txns[i].lease)
  {
    Published(w.store, w.txns[i].lease, EditedOf(w.txns[i], w.txns[i].phase.swap, rev))
  }

  ghost function PublishedBy(w: World, i: nat, rev: string -> string): World
    requires Inv(w.store) && i in w.txns && w.txns[i].phase.EditWrote? && LeaseCurrent(w.store, w.txns[i].lease)
  {
    w.(store := StoreAfter(w, i, rev), log := LogAfter(w, i), txns := w.txns - {i})
  }

  function Committed(w: World, i: nat): World
    requires CanCommit(w, i)
  {
    var r := w.txns[i].phase.confirmed;
    Put(w, r.target, Backup(r)).(store := Without(w.store, r), txns := w.txns - {i}, restored := w.restored + {r.id})
  }

  // ---- the invariant -------------------------------------------------------------------------------

  /** The record tells what its edit did. */
  predicate Tells(r: Record, swap: Swap, rev: string -> string) {
    Backup(r) == swap.read && r.afterSize == |swap.after| && r.revisionAfter == rev(swap.after)
  }

  ghost predicate RecordsTell(records: map<nat, Record>, log: map<nat, Swap>, rev: string -> string) {
    forall k :: k in records ==> k in log && Tells(records[k], log[k], rev)
  }

  ghost predicate SwapsAlike(log: map<nat, Swap>, rev: string -> string) {
    forall k :: k in log ==> Alike(log[k].read, log[k].found, rev)
  }

  /** IDs are used once: the history knows none above the last, and restored ones are gone. */
  ghost predicate IDsUsed(store: Store, log: map<nat, Swap>, restored: set<nat>) {
    && (forall k :: k in log ==> k <= store.nextID)
    && (forall k :: k in restored ==> k <= store.nextID && k !in store.records)
  }

  ghost predicate StampsPast(files: map<string, File>, clock: nat) { forall t :: t in files ==> files[t].stamp < clock }

  /** Every write has a stamp of its own. */
  ghost predicate StampsApart(files: map<string, File>) {
    forall t, u :: t in files && u in files && files[t].stamp == files[u].stamp ==> t == u
  }

  ghost predicate Locks(txns: map<nat, Txn>) {
    forall i, j :: i in txns && j in txns && i != j ==> txns[i].target != txns[j].target
  }

  ghost predicate RecordHeld(txn: Txn, r: Record, log: map<nat, Swap>, rev: string -> string) {
    r.target == txn.target && r.scope == txn.lease && r.id in log && Tells(r, log[r.id], rev)
  }

  ghost predicate TxnOk(txn: Txn, files: map<string, File>, clock: nat, log: map<nat, Swap>, rev: string -> string) {
    match txn.phase
    case EditBegun => true
    case EditRead(read) => true
    case EditInspected(read, stamp) =>
      && (if stamp.Some? then stamp.value < clock else read.None?)
      && (StampOf(files, txn.target) == stamp ==> Alike(read, BytesOf(files, txn.target), rev))
    case EditWrote(swap) => Alike(swap.read, swap.found, rev)
    case RollbackBegun(id) => true
    case RollbackLoaded(r) => RecordHeld(txn, r, log, rev)
    case RollbackConfirmed(r, stamp) =>
      && RecordHeld(txn, r, log, rev) && stamp < clock
      && (StampOf(files, txn.target) == Some(stamp) ==> FileCheck(BytesOf(files, txn.target), rev, r).None?)
  }

  ghost predicate TxnsOk(txns: map<nat, Txn>, files: map<string, File>, clock: nat, log: map<nat, Swap>,
                         rev: string -> string)
  {
    forall i :: i in txns ==> TxnOk(txns[i], files, clock, log, rev)
  }

  /** Files, calls and history agree. */
  ghost predicate HistoryOk(w: World, rev: string -> string) {
    && StampsPast(w.files, w.clock) && StampsApart(w.files) && Locks(w.txns)
    && RecordsTell(w.store.records, w.log, rev) && SwapsAlike(w.log, rev) && IDsUsed(w.store, w.log, w.restored)
    && TxnsOk(w.txns, w.files, w.clock, w.log, rev)
  }

  ghost predicate WorldOk(w: World, rev: string -> string) {
    Inv(w.store) && HistoryOk(w, rev)
  }

  // ---- what the store operations do to records and leases ----------------------------------------

  /** Only IDs above the last one are new; scopes keep their bindings, and a lease that has
      lost its binding does not get it back. */
  ghost predicate Later(s: Store, t: Store) {
    s.nextID <= t.nextID && RecordsLater(s, t) && LeasesLater(s, t)
  }

  ghost predicate LeasesLater(s: Store, t: Store) {
    && |s.heap| <= |t.heap|
    && (forall l :: 0 <= l < |s.heap| ==> t.heap[l].binding == s.heap[l].binding)
    && (forall l :: 0 <= l < |s.heap| && LeaseCurrent(t, l) ==> LeaseCurrent(s, l))
  }

  ghost predicate RecordsLater(s: Store, t: Store) {
    forall k :: k in t.records && k <= s.nextID ==> k in s.records && t.records[k] == s.records[k]
  }

  lemma ForgetLater(s: Store, b: Binding)
    requires Inv(s)
    ensures var t := Forget(s, b); Inv(t) && Later(s, t) && t.nextID == s.nextID
  {
    ForgetInv(s, b);
  }

  lemma OpenedLeases(s: Store, b: Binding, valid: set<Binding>)
    requires ScopesNamed(s.heap, s.scopes)
    ensures LeasesLater(s, Opened(s, b, valid).0)
  {
  }

  lemma OpenedLater(s: Store, b: Binding, valid: set<Binding>)
    requires Inv(s) && b in valid
    ensures var t := Opened(s, b, valid).0; Inv(t) && Later(s, t) && t.nextID == s.nextID
  {
    OpenedInv(s, b, valid);
    OpenedLeases(s, b, valid);
  }

  lemma WithoutLeases(s: Store, r: Record)
    requires r.scope < |s.heap|
    ensures LeasesLater(s, Without(s, r))
  {
  }

  lemma WithoutLater(s: Store, r: Record)
    requires Inv(s) && r.id in s.records && s.records[r.id] == r
    ensures r.scope < |s.heap|
    ensures var t := Without(s, r); Inv(t) && Later(s, t) && t.nextID == s.nextID
  {
    WithoutInv(s, r);
    WithoutLeases(s, r);
  }

  lemma LeasesLaterStill(s: Store, t: Store, u: Store)
    requires LeasesLater(s, t) && LeasesLater(t, u)
    ensures LeasesLater(s, u)
  {
  }

  lemma {:induction false} EvictedLeases(s: Store)
    requires Inv(s)
    ensures LeasesLater(s, Evicted(s))
    decreases |s.records.Keys|
  {
    if !Fits(s) {
      var k, t := EvictOne(s);
      WithoutLeases(s, s.records[k]);
      EvictedLeases(t);
      LeasesLaterStill(s, t, Evicted(t));
    }
  }

  lemma EnteredLeases(s: Store, lease: nat, e: Edited)
    requires Inv(s) && lease < |s.heap|
    ensures LeasesLater(s, Entered(s, lease, e))
  {
    if e.target in s.heap[lease].files {
      assert FileRecorded(s.records, lease, e.target, s.heap[lease].files[e.target]);
    }
  }

  /** An edit's publication: at most one new record, its own. */
  lemma PublishedLater(s: Store, lease: nat, e: Edited)
    requires Inv(s) && LeaseCurrent(s, lease)
    ensures var t := Published(s, lease, e);
            && Inv(t) && Later(s, t) && t.nextID == s.nextID + 1
            && (t.nextID in t.records ==> t.records[t.nextID] == RecordOf(e, t.nextID, lease))
  {
    PublishedInv(s, lease, e);
    EnteredInv(s, lease, e);
    EnteredLeases(s, lease, e);
    EvictedLeases(Entered(s, lease, e));
    LeasesLaterStill(s, Entered(s, lease, e), Published(s, lease, e));
    PublishedRecords(s, lease, e);
  }

  lemma PublishedRecords(s: Store, lease: nat, e: Edited)
    requires Inv(s) && LeaseCurrent(s, lease)
    ensures var t := Published(s, lease, e);
            && RecordsLater(s, t) && t.nextID == s.nextID + 1
            && (t.nextID in t.records ==> t.records[t.nextID] == RecordOf(e, t.nextID, lease))
  {
    EnteredInv(s, lease, e);
    var entered := Entered(s, lease, e);
    EvictedKept(entered, entered.nextID);
    forall k | k in Published(s, lease, e).records
      ensures k in entered.records && Published(s, lease, e).records[k] == entered.records[k]
    {
      EvictedKept(entered, k);
    }
    EnteredRecords(s, lease, e);
  }

  lemma EnteredRecords(s: Store, lease: nat, e: Edited)
    requires Inv(s) && lease < |s.heap|
    ensures var t := Entered(s, lease, e);
            && RecordsLater(s, t) && t.nextID == s.nextID + 1
            && t.nextID in t.records && t.records[t.nextID] == RecordOf(e, t.nextID, lease)
  {
    if e.target in s.heap[lease].files {
      assert FileRecorded(s.records, lease, e.target, s.heap[lease].files[e.target]);
    }
  }

  // ---- every step keeps the invariant ----------------------------------------------------------------

  lemma StoreStepOk(w: World, t: Store, rev: string -> string)
    requires HistoryOk(w, rev) && RecordsLater(w.store, t) && t.nextID == w.store.nextID && IDsBelow(t)
    ensures HistoryOk(w.(store := t), rev)
  {
  }

  ghost predicate IDsBelow(s: Store) { forall k :: k in s.records ==> k <= s.nextID }

  lemma PutTxn(txn: Txn, files: map<string, File>, clock: nat, log: map<nat, Swap>, rev: string -> string, t: string,
               bytes: Option<string>)
    requires TxnOk(txn, files, clock, log, rev)
    ensures var after := if bytes.None? then files - {t} else files[t := File(bytes.value, clock)];
            TxnOk(txn, after, clock + 1, log, rev)
  {
  }

  lemma PutStamps(w: World, t: string, bytes: Option<string>)
    requires StampsPast(w.files, w.clock) && StampsApart(w.files)
    ensures var p := Put(w, t, bytes); StampsPast(p.files, p.clock) && StampsApart(p.files)
  {
  }

  lemma PutOk(w: World, t: string, bytes: Option<string>, rev: string -> string)
    requires StampsPast(w.files, w.clock) && StampsApart(w.files) && TxnsOk(w.txns, w.files, w.clock, w.log, rev)
    ensures var p := Put(w, t, bytes);
            StampsPast(p.files, p.clock) && StampsApart(p.files) && TxnsOk(p.txns, p.files, p.clock, p.log, rev)
  {
    var p := Put(w, t, bytes);
    PutStamps(w, t, bytes);
    forall i | i in p.txns ensures TxnOk(p.txns[i], p.files, p.clock, p.log, rev) {
      PutTxn(w.txns[i], w.files, w.clock, w.log, rev, t, bytes);
    }
  }

  lemma PutWorldOk(w: World, t: string, bytes: Option<string>, rev: string -> string)
    requires HistoryOk(w, rev)
    ensures HistoryOk(Put(w, t, bytes), rev)
  {
    PutOk(w, t, bytes, rev);
  }

  lemma AdvanceOk(w: World, i: nat, phase: Phase, rev: string -> string)
    requires HistoryOk(w, rev) && i in w.txns && TxnOk(w.txns[i].(phase := phase), w.files, w.clock, w.log, rev)
    ensures HistoryOk(Advance(w, i, phase), rev)
  {
  }

  lemma BeginOk(w: World, i: nat, txn: Txn, rev: string -> string)
    requires HistoryOk(w, rev) && i !in w.txns && Unlocked(w.txns, txn.target)
             && TxnOk(txn, w.files, w.clock, w.log, rev)
    ensures HistoryOk(w.(txns := w.txns[i := txn]), rev)
  {
  }

  lemma EndOk(w: World, i: nat, rev: string -> string)
    requires HistoryOk(w, rev)
    ensures HistoryOk(w.(txns := w.txns - {i}), rev)
  {
  }

  lemma LoadOk(w: World, i: nat, rev: string -> string)
    requires WorldOk(w, rev) && CanLoad(w, i, rev)
    ensures RecordHeld(w.txns[i], LoadedBy(w, w.txns[i], rev).value, w.log, rev)
  {
    var txn := w.txns[i];
    LoadedRecord(w.store, w.valid, txn.lease, txn.path, txn.target, txn.phase.expectedID, w.links,
                 BytesOf(w.files, txn.target), rev);
  }

  /** What the history needs to know of a store that has lost a record. */
  ghost predicate LostOne(s: Store, t: Store, id: nat) {
    RecordsLater(s, t) && t.nextID == s.nextID && IDsBelow(t) && id <= s.nextID && id !in t.records
  }

  lemma CommitStore(s: Store, r: Record)
    requires Inv(s) && r.id in s.records && s.records[r.id] == r
    ensures r.scope < |s.heap| && LostOne(s, Without(s, r), r.id)
  {
    assert RecordFiled(s.heap, s.scopes, r);
  }

  lemma CommitHistory(w: World, i: nat, t: Store, r: Record, rev: string -> string)
    requires HistoryOk(w, rev) && LostOne(w.store, t, r.id)
    ensures var v := Put(w, r.target, Backup(r));
            HistoryOk(v.(store := t, txns := w.txns - {i}, restored := w.restored + {r.id}), rev)
  {
    var v := w.(store := t);
    StoreStepOk(w, t, rev);
    PutWorldOk(v, r.target, Backup(r), rev);
    var u := Put(v, r.target, Backup(r));
    EndOk(u, i, rev);
    RestoredOk(u.(txns := u.txns - {i}), r.id, rev);
  }

  lemma CommitOk(w: World, i: nat, rev: string -> string)
    requires WorldOk(w, rev) && CanCommit(w, i)
    ensures HistoryOk(Committed(w, i), rev)
  {
    var r := w.txns[i].phase.confirmed;
    CommitStore(w.store, r);
    CommitHistory(w, i, Without(w.store, r), r, rev);
  }

  lemma RestoredOk(w: World, id: nat, rev: string -> string)
    requires HistoryOk(w, rev) && id <= w.store.nextID && id !in w.store.records
    ensures HistoryOk(w.(restored := w.restored + {id}), rev)
  {
  }

  lemma LoggedTxns(txns: map<nat, Txn>, files: map<string, File>, clock: nat, log: map<nat, Swap>,
                   rev: string -> string, id: nat, swap: Swap)
    requires TxnsOk(txns, files, clock, log, rev) && id !in log
    ensures TxnsOk(txns, files, clock, log[id := swap], rev)
  {
    forall i | i in txns
      ensures TxnOk(txns[i], files, clock, log[id := swap], rev)
    {
      assert TxnOk(txns[i], files, clock, log, rev);
    }
  }

  lemma EntryTells(txn: Txn, swap: Swap, rev: string -> string, id: nat)
    ensures Tells(RecordOf(EditedOf(txn, swap, rev), id, txn.lease), swap, rev)
  {
  }

  lemma EntryOk(w: World, t: Store, swap: Swap, r: Record, rev: string -> string)
    requires HistoryOk(w, rev) && IDsBelow(t) && RecordsLater(w.store, t) && t.nextID == w.store.nextID + 1
    requires (t.nextID in t.records ==> t.records[t.nextID] == r) && Tells(r, swap, rev)
             && Alike(swap.read, swap.found, rev)
    ensures HistoryOk(w.(store := t, log := w.log[w.store.nextID + 1 := swap]), rev)
  {
    LoggedTxns(w.txns, w.files, w.clock, w.log, rev, w.store.nextID + 1, swap);
    PublishedTells(w.store, t, w.log, w.restored, swap, rev, r);
  }

  /** What the history needs to know of a store in which an edit has been published. */
  ghost predicate WonOne(s: Store, t: Store, r: Record) {
    && RecordsLater(s, t) && t.nextID == s.nextID + 1 && IDsBelow(t)
    && (t.nextID in t.records ==> t.records[t.nextID] == r)
  }

  lemma PublishStore(s: Store, lease: nat, e: Edited)
    requires Inv(s) && LeaseCurrent(s, lease)
    ensures WonOne(s, Published(s, lease, e), RecordOf(e, s.nextID + 1, lease))
  {
    PublishedRecords(s, lease, e);
    PublishedInv(s, lease, e);
  }

  lemma PublishHistory(w: World, i: nat, t: Store, v: World, rev: string -> string)
    requires HistoryOk(w, rev) && i in w.txns && w.txns[i].phase.EditWrote?
    requires WonOne(w.store, t,
             RecordOf(EditedOf(w.txns[i], w.txns[i].phase.swap, rev), w.store.nextID + 1, w.txns[i].lease))
    requires v == w.(store := t, log := LogAfter(w, i), txns := w.txns - {i})
    ensures HistoryOk(v, rev)
  {
    var txn, swap, u := w.txns[i], w.txns[i].phase.swap, w.(txns := w.txns - {i});
    assert TxnOk(txn, w.files, w.clock, w.log, rev);
    EndOk(w, i, rev);
    EntryTells(txn, swap, rev, w.store.nextID + 1);
    EntryOk(u, t, swap, RecordOf(EditedOf(txn, swap, rev), w.store.nextID + 1, txn.lease), rev);
  }

  lemma PublishOk(w: World, i: nat, rev: string -> string)
    requires WorldOk(w, rev) && CanPublish(w, i)
    ensures HistoryOk(PublishedBy(w, i, rev), rev)
  {
    var txn := w.txns[i];
    var e := EditedOf(txn, txn.phase.swap, rev);
    PublishStore(w.store, txn.lease, e);
    PublishHistory(w, i, StoreAfter(w, i, rev), PublishedBy(w, i, rev), rev);
  }

  lemma ForgetOk(w: World, b: Binding, rev: string -> string)
    requires WorldOk(w, rev)
    ensures HistoryOk(w.(store := Forget(w.store, b)), rev)
  {
    ForgetLater(w.store, b);
    StoreStepOk(w, Forget(w.store, b), rev);
  }

  lemma OpenOk(w: World, b: Binding, rev: string -> string)
    requires WorldOk(w, rev) && b in w.valid
    ensures HistoryOk(w.(store := Opened(w.store, b, w.valid).0), rev)
  {
    OpenedLater(w.store, b, w.valid);
    StoreStepOk(w, Opened(w.store, b, w.valid).0, rev);
  }

  lemma PublishedTells(s: Store, t: Store, log: map<nat, Swap>, restored: set<nat>, swap: Swap, rev: string -> string,
                       r: Record)
    requires RecordsTell(s.records, log, rev) && SwapsAlike(log, rev) && IDsUsed(s, log, restored)
    requires IDsBelow(t) && RecordsLater(s, t) && t.nextID == s.nextID + 1
             && (t.nextID in t.records ==> t.records[t.nextID] == r)
    requires Tells(r, swap, rev) && Alike(swap.read, swap.found, rev)
    ensures var more := log[s.nextID + 1 := swap];
            RecordsTell(t.records, more, rev) && SwapsAlike(more, rev) && IDsUsed(t, more, restored)
  {
  }

  lemma WriteOk(w: World, i: nat, after: string, rev: string -> string)
    requires HistoryOk(w, rev) && CanWrite(w, i)
    ensures HistoryOk(Written(w, i, after), rev)
  {
    var txn := w.txns[i];
    assert TxnOk(txn, w.files, w.clock, w.log, rev);
    PutOk(w, txn.target, Some(after), rev);
    var swap := Swap(txn.phase.original, BytesOf(w.files, txn.target), after);
    AdvanceOk(Put(w, txn.target, Some(after)), i, EditWrote(swap), rev);
  }

  lemma InspectOk(w: World, i: nat, via: string, rev: string -> string)
    requires HistoryOk(w, rev) && CanInspect(w, i, via, rev)
    ensures HistoryOk(Inspected(w, i, via), rev)
  {
    AdvanceOk(w, i, EditInspected(w.txns[i].phase.read, StampOf(w.files, via)), rev);
  }

  lemma ConfirmOk(w: World, i: nat, rev: string -> string)
    requires HistoryOk(w, rev) && CanConfirm(w, i, rev)
    ensures HistoryOk(Confirmed(w, i, rev), rev)
  {
    assert TxnOk(w.txns[i], w.files, w.clock, w.log, rev);
    var r := w.txns[i].phase.record;
    AdvanceOk(w, i, RollbackConfirmed(r, StampOf(w.files, r.target).value), rev);
  }

  /** What a step makes of the world, when it is possible. */
  ghost function Stepped(w: World, step: Step, rev: string -> string): Option<World> {
    if Inv(w.store) && Enabled(w, step, rev) then Some(After(w, step, rev)) else None
  }

  ghost predicate Next(w: World, step: Step, v: World, rev: string -> string) { Stepped(w, step, rev) == Some(v) }

  /** What a step does to the store: only a publication uses up an ID. */
  ghost predicate StoreKept(w: World, step: Step, v: World) {
    && Inv(v.store) && Later(w.store, v.store)
    && v.store.nextID == (if step.PublishEdit? then w.store.nextID + 1 else w.store.nextID)
  }

  lemma StepKeepsStore(w: World, step: Step, v: World, rev: string -> string)
    requires Next(w, step, v, rev)
    ensures StoreKept(w, step, v)
  {
    match step
    case ForgetBinding(b) => ForgetLater(w.store, b);
    case OpenSession(b) => OpenedLater(w.store, b, w.valid);
    case PublishEdit(i) => PublishedLater(w.store, w.txns[i].lease, EditedOf(w.txns[i], w.txns[i].phase.swap, rev));
    case Commit(i) => WithoutLater(w.store, w.txns[i].phase.confirmed);
    case _ =>
  }

  lemma StepKeepsHistory(w: World, step: Step, v: World, rev: string -> string)
    requires WorldOk(w, rev) && Next(w, step, v, rev)
    ensures HistoryOk(v, rev)
  {
    hide Published, Opened, Forget, Inv;
    match step
    case Outside(t, bytes) => PutWorldOk(w, t, bytes, rev);
    case Relink(links) =>
    case Revalidate(valid) =>
    case ForgetBinding(b) => ForgetOk(w, b, rev);
    case OpenSession(b) => OpenOk(w, b, rev);
    case BeginEdit(i, lease, path, t) => BeginOk(w, i, Txn(lease, path, t, EditBegun), rev);
    case ReadFile(i, read) => AdvanceOk(w, i, EditRead(read), rev);
    case InspectFile(i, via) => InspectOk(w, i, via, rev);
    case WriteFile(i, after) => WriteOk(w, i, after, rev);
    case PublishEdit(i) => PublishOk(w, i, rev);
    case BeginRollback(i, lease, path, t, id) => BeginOk(w, i, Txn(lease, path, t, RollbackBegun(id)), rev);
    case LoadRecord(i) => LoadOk(w, i, rev); AdvanceOk(w, i, RollbackLoaded(LoadedBy(w, w.txns[i], rev).value), rev);
    case ConfirmFile(i) => ConfirmOk(w, i, rev);
    case Commit(i) => CommitOk(w, i, rev);
    case Abandon(i) => EndOk(w, i, rev);
  }

  lemma StepOk(w: World, step: Step, v: World, rev: string -> string)
    requires WorldOk(w, rev) && Next(w, step, v, rev)
    ensures WorldOk(v, rev)
  {
    hide Stepped;
    StepKeepsStore(w, step, v, rev);
    StepKeepsHistory(w, step, v, rev);
  }

  // ---- what an edit does -------------------------------------------------------------------------------

  /** The lease's binding is valid and names the very scope of the lease. */
  ghost predicate InForce(w: World, lease: nat) {
    && lease < |w.store.heap| && w.store.heap[lease].binding in w.valid
    && w.store.heap[lease].binding in w.store.scopes && w.store.scopes[w.store.heap[lease].binding] == lease
  }

  ghost predicate Leads(w: World, path: string, target: string) { path in w.links && w.links[path] == target }

  /** A write replaces what the edit has read, as far as size and revision tell, or makes a
      file where the edit found none; it goes where the path leads, through a lease in force,
      and leaves all other files alone. */
  lemma WriteReplacesRead(w: World, i: nat, after: string, v: World, rev: string -> string)
    requires WorldOk(w, rev) && CanWrite(w, i) && v == Written(w, i, after)
    ensures var t, read := w.txns[i].target, w.txns[i].phase.original;
            && (if read.None? then t !in w.files
                else && t in w.files && |w.files[t].bytes| == |read.value| && rev(w.files[t].bytes) == rev(read.value)
                     && Leads(w, w.txns[i].path, t))
            && InForce(w, w.txns[i].lease)
            && t in v.files && v.files[t].bytes == after
            && (forall u :: u != t ==> BytesOf(v.files, u) == BytesOf(w.files, u))
            && v.store == w.store && v.log == w.log
  {
    assert TxnOk(w.txns[i], w.files, w.clock, w.log, rev);
  }

  /** What a publication records: the path, the target, and what was read before, with its
      revision, and the size and revision of what was written. */
  lemma PublishRecords(w: World, i: nat, v: World, rev: string -> string)
    requires WorldOk(w, rev) && CanPublish(w, i) && v == PublishedBy(w, i, rev)
    requires w.store.nextID + 1 in v.store.records
    ensures var r, txn := v.store.records[w.store.nextID + 1], w.txns[i]; var swap := txn.phase.swap;
            && r.id == w.store.nextID + 1 && r.scope == txn.lease && r.path == txn.path && r.target == txn.target
            && r.created == swap.read.None? && r.afterSize == |swap.after| && r.revisionAfter == rev(swap.after)
            && (swap.read.Some? ==> r.before == swap.read.value && r.revisionBefore == rev(swap.read.value))
            && r.scope < |v.store.heap| && r.target in v.store.heap[r.scope].files
            && v.store.heap[r.scope].files[r.target] == r
  {
    hide Published, HistoryOk, Inv;
    var txn := w.txns[i];
    PublishStore(w.store, txn.lease, EditedOf(txn, txn.phase.swap, rev));
    PublishedInv(w.store, txn.lease, EditedOf(txn, txn.phase.swap, rev));
    FiledAs(v.store, w.store.nextID + 1);
  }

  lemma FiledAs(s: Store, id: nat)
    requires Inv(s) && id in s.records
    ensures var r := s.records[id];
            && r.id == id && r.scope < |s.heap|
            && r.target in s.heap[r.scope].files && s.heap[r.scope].files[r.target] == r
  {
    assert RecordFiled(s.heap, s.scopes, s.records[id]);
  }

  // ---- what a rollback does ----------------------------------------------------------------------------

  /** A rollback that succeeds puts back what the recorded edit had read, nothing if that
      edit made the file; it does so only over a file with the size and revision of that
      edit's output, through a valid lease, and it uses the record up. */
  lemma CommitRestores(w: World, i: nat, v: World, rev: string -> string)
    requires WorldOk(w, rev) && CanCommit(w, i) && v == Committed(w, i)
    ensures var r, t := w.txns[i].phase.confirmed, w.txns[i].target;
            && r.id in w.log
            && BytesOf(v.files, t) == w.log[r.id].read
            && (if r.created then t !in v.files else t in v.files && v.files[t].bytes == r.before)
            && t in w.files && |w.files[t].bytes| == |w.log[r.id].after|
            && rev(w.files[t].bytes) == rev(w.log[r.id].after)
            && (forall u :: u != t ==> BytesOf(v.files, u) == BytesOf(w.files, u))
            && InForce(w, w.txns[i].lease) && r.scope == w.txns[i].lease
            && Leads(w, w.txns[i].path, t) && Leads(w, r.path, t)
            && r.id in w.store.records && r.id !in v.store.records && r.id !in w.restored && r.id in v.restored
  {
    assert TxnOk(w.txns[i], w.files, w.clock, w.log, rev);
  }

  /** The file is what the recorded write left and becomes what it found, as far as size
      and revision tell. */
  lemma CommitUndoes(w: World, i: nat, v: World, rev: string -> string)
    requires WorldOk(w, rev) && CanCommit(w, i) && v == Committed(w, i)
    ensures var r, t := w.txns[i].phase.confirmed, w.txns[i].target;
            && r.id in w.store.records && w.store.records[r.id].target == t && r.id in w.log
            && Alike(BytesOf(w.files, t), Some(w.log[r.id].after), rev)
            && Alike(BytesOf(v.files, t), w.log[r.id].found, rev)
  {
    CommitRestores(w, i, v, rev);
    assert TxnOk(w.txns[i], w.files, w.clock, w.log, rev);
    var swap := w.log[w.txns[i].phase.confirmed.id];
    assert Alike(swap.read, swap.found, rev);
  }

  /** With revisions that tell contents apart, an edit followed by its rollback leaves the
      file exactly as the edit's write found it. */
  lemma EditThenRollback(w: World, i: nat, v: World, rev: string -> string)
    requires WorldOk(w, rev) && CanCommit(w, i) && v == Committed(w, i) && forall a, b :: rev(a) == rev(b) ==> a == b
    ensures var r, t := w.txns[i].phase.confirmed, w.txns[i].target;
            r.id in w.log && BytesOf(w.files, t) == Some(w.log[r.id].after) && BytesOf(v.files, t) == w.log[r.id].found
  {
    hide WorldOk, Committed;
    CommitUndoes(w, i, v, rev);
  }

  /** Publishing puts what the write did into the history, under the new record's ID. */
  lemma PublishIsLogged(w: World, i: nat, v: World, rev: string -> string)
    requires WorldOk(w, rev) && CanPublish(w, i) && v == PublishedBy(w, i, rev)
    ensures v.log == LogAfter(w, i)
    ensures v.store.nextID == w.store.nextID + 1 && w.store.nextID + 1 !in w.log
    ensures v.store.nextID in v.store.records ==> Tells(v.store.records[v.store.nextID], w.txns[i].phase.swap, rev)
  {
    var txn := w.txns[i];
    PublishStore(w.store, txn.lease, EditedOf(txn, txn.phase.swap, rev));
    EntryTells(txn, txn.phase.swap, rev, w.store.nextID + 1);
  }

  /** While a call holds the lock of a target, nobody else here changes the file. */
  lemma LockKeepsFile(w: World, step: Step, v: World, i: nat, rev: string -> string)
    requires WorldOk(w, rev) && Next(w, step, v, rev) && i in w.txns
    ensures BytesOf(v.files, w.txns[i].target) != BytesOf(w.files, w.txns[i].target) ==>
              step.Outside? || ((step.WriteFile? || step.Commit?) && step.txn == i)
  {
    hide Published, Opened, Forget, Inv;
    match step
    case Commit(j) => CommitRestores(w, j, v, rev);
    case _ =>
  }

  // ---- whole runs ------------------------------------------------------------------------------------------

  /** A new manager, whatever the files: nothing recorded and no call in progress. */
  ghost predicate Initial(w: World) {
    && w.store == Store([], map[], map[], 0, 0, w.store.maxBytes, w.store.maxRecords)
    && w.txns == map[] && w.log == map[] && w.restored == {}
    && StampsPast(w.files, w.clock) && StampsApart(w.files)
  }

  lemma InitialOk(w: World, rev: string -> string)
    requires Initial(w)
    ensures WorldOk(w, rev)
  {
  }

  /** The first `n` steps are steps of the system, from a new manager on. */
  ghost predicate Run(worlds: seq<World>, steps: seq<Step>, rev: string -> string, n: nat) {
    && n <= |steps| < |worlds|
    && if n == 0 then Initial(worlds[0])
       else Run(worlds, steps, rev, n - 1) && Next(worlds[n - 1], steps[n - 1], worlds[n], rev)
  }

  lemma {:induction false} RunOk(worlds: seq<World>, steps: seq<Step>, rev: string -> string, n: nat)
    requires Run(worlds, steps, rev, n)
    ensures WorldOk(worlds[n], rev)
  {
    hide Stepped, WorldOk;
    if n == 0 {
      InitialOk(worlds[0], rev);
    } else {
      RunOk(worlds, steps, rev, n - 1);
      StepOk(worlds[n - 1], steps[n - 1], worlds[n], rev);
    }
  }

  lemma {:induction false} RunPart(worlds: seq<World>, steps: seq<Step>, rev: string -> string, k: nat, n: nat)
    requires Run(worlds, steps, rev, n) && k <= n
    ensures Run(worlds, steps, rev, k)
    decreases n - k
  {
    hide Stepped;
    if k < n { RunPart(worlds, steps, rev, k, n - 1); }
  }

  lemma RunStep(worlds: seq<World>, steps: seq<Step>, rev: string -> string, k: nat, n: nat)
    requires Run(worlds, steps, rev, n) && k < n
    ensures WorldOk(worlds[k], rev) && Next(worlds[k], steps[k], worlds[k + 1], rev)
  {
    hide Stepped, WorldOk;
    RunPart(worlds, steps, rev, k + 1, n);
    RunOk(worlds, steps, rev, k);
  }

  // ---- the limits ------------------------------------------------------------------------------------------

  lemma FitsWithFewer(s: Store, t: Store)
    requires Inv(s) && Fits(s) && Inv(t) && t.nextID == s.nextID && t.maxBytes == s.maxBytes
             && t.maxRecords == s.maxRecords
    requires forall k :: k in t.records ==> k in s.records && t.records[k] == s.records[k]
    ensures Fits(t)
  {
    hide Indexed;
    TotalGrows(t.records, s.records, s.nextID);
    CountGrows(t.records, s.records);
  }

  /** No step takes the store over its limits. */
  lemma StepFits(w: World, step: Step, v: World, rev: string -> string)
    requires Next(w, step, v, rev) && Fits(w.store)
    ensures Fits(v.store)
  {
    hide HistoryOk, Indexed, Total;
    match step
    case ForgetBinding(b) => ForgetInv(w.store, b); FitsWithFewer(w.store, v.store);
    case OpenSession(b) => OpenedInv(w.store, b, w.valid); FitsWithFewer(w.store, v.store);
    case PublishEdit(i) => PublishedInv(w.store, w.txns[i].lease, EditedOf(w.txns[i], w.txns[i].phase.swap, rev));
    case Commit(i) => WithoutInv(w.store, w.txns[i].phase.confirmed); FitsWithFewer(w.store, v.store);
    case _ =>
  }

  /** In every run the store stays within its limits. */
  lemma {:induction false} RunFits(worlds: seq<World>, steps: seq<Step>, rev: string -> string, n: nat)
    requires Run(worlds, steps, rev, n)
    ensures Fits(worlds[n].store)
  {
    hide Stepped, WorldOk;
    if n > 0 {
      RunFits(worlds, steps, rev, n - 1);
      StepFits(worlds[n - 1], steps[n - 1], worlds[n], rev);
    }
  }

  /** The record that a step restores. */
  function Restoring(w: World, step: Step): Option<Record> {
    if step.Commit? && step.txn in w.txns && w.txns[step.txn].phase.RollbackConfirmed?
    then Some(w.txns[step.txn].phase.confirmed) else None
  }

  /** What one step means for restoring: the history grows, lost leases stay lost, and a
      commit restores a record that was not restored before, through a lease in force. */
  ghost predicate Kept(w: World, step: Step, v: World) {
    && LeasesLater(w.store, v.store) && w.restored <= v.restored
    && (step.Commit? ==> Restoring(w, step).Some? && RestoresNow(w, Restoring(w, step).value, step.txn, v))
  }

  ghost predicate RestoresNow(w: World, r: Record, i: nat, v: World) {
    && i in w.txns && r.scope == w.txns[i].lease && LeaseCurrent(w.store, r.scope)
    && r.id !in w.restored && r.id in v.restored
  }

  lemma StepKept(w: World, step: Step, v: World, rev: string -> string)
    requires WorldOk(w, rev) && Next(w, step, v, rev)
    ensures Kept(w, step, v)
  {
    hide Opened, Forget, Inv;
    StepKeepsStore(w, step, v, rev);
    if step.Commit? { CommitRestores(w, step.txn, v, rev); }
  }

  lemma {:induction false} RunLater(worlds: seq<World>, steps: seq<Step>, rev: string -> string, j: nat, k: nat)
    requires Run(worlds, steps, rev, k) && j <= k
    ensures LeasesLater(worlds[j].store, worlds[k].store) && worlds[j].restored <= worlds[k].restored
    decreases k - j
  {
    hide Stepped, WorldOk;
    if j < k {
      RunLater(worlds, steps, rev, j, k - 1);
      RunStep(worlds, steps, rev, k - 1, k);
      StepKept(worlds[k - 1], steps[k - 1], worlds[k], rev);
      LeasesLaterStill(worlds[j].store, worlds[k - 1].store, worlds[k].store);
    }
  }

  /** No record is ever restored twice. */
  lemma RestoredOnce(worlds: seq<World>, steps: seq<Step>, rev: string -> string, j: nat, k: nat)
    requires Run(worlds, steps, rev, |steps|) && j < k < |steps| && steps[j].Commit? && steps[k].Commit?
    ensures Restoring(worlds[j], steps[j]).Some? && Restoring(worlds[k], steps[k]).Some?
    ensures Restoring(worlds[j], steps[j]).value.id != Restoring(worlds[k], steps[k]).value.id
  {
    hide Stepped, WorldOk;
    RunStep(worlds, steps, rev, j, |steps|);
    StepKept(worlds[j], steps[j], worlds[j + 1], rev);
    RunStep(worlds, steps, rev, k, |steps|);
    StepKept(worlds[k], steps[k], worlds[k + 1], rev);
    RunPart(worlds, steps, rev, k, |steps|);
    RunLater(worlds, steps, rev, j + 1, k);
  }

  /** Once a lease has been forgotten no rollback succeeds through it, even when its binding
      becomes valid again. */
  lemma ForgottenLeaseStaysDead(worlds: seq<World>, steps: seq<Step>, rev: string -> string, j: nat, k: nat, lease: nat)
    requires Run(worlds, steps, rev, |steps|) && j <= k < |steps|
    requires lease < |worlds[j].store.heap| && !LeaseCurrent(worlds[j].store, lease)
    ensures !LeaseCurrent(worlds[k].store, lease)
    ensures steps[k].Commit? ==> steps[k].txn in worlds[k].txns && worlds[k].txns[steps[k].txn].lease != lease
  {
    hide Stepped, WorldOk;
    RunPart(worlds, steps, rev, k, |steps|);
    RunLater(worlds, steps, rev, j, k);
    RunStep(worlds, steps, rev, k, |steps|);
    StepKept(worlds[k], steps[k], worlds[k + 1], rev);
  }

  // ---- which write a rollback undoes ---------------------------------------------------------------------

  /** The step is the write that the swap tells of. */
  ghost predicate Wrote(w: World, step: Step, t: string, swap: Swap) {
    && step.WriteFile? && step.txn in w.txns && w.txns[step.txn].target == t
    && BytesOf(w.files, t) == swap.found && step.after == swap.after
  }

  /** Among the first `n` steps is the write that the swap tells of. */
  ghost predicate Stems(worlds: seq<World>, steps: seq<Step>, n: nat, t: string, swap: Swap)
    requires n <= |steps| < |worlds|
  {
    exists j :: 0 <= j < n && Wrote(worlds[j], steps[j], t, swap)
  }

  /** A call that has written either did so just now or had done so before. */
  lemma WrittenCall(w: World, step: Step, v: World, i: nat, rev: string -> string)
    requires Next(w, step, v, rev) && i in v.txns && v.txns[i].phase.EditWrote?
    ensures Wrote(w, step, v.txns[i].target, v.txns[i].phase.swap) || (i in w.txns && w.txns[i] == v.txns[i])
  {
  }

  /** Only a publication adds to the history. */
  lemma StepLogs(w: World, step: Step, v: World, rev: string -> string)
    requires Next(w, step, v, rev)
    ensures if step.PublishEdit? then CanPublish(w, step.txn) && v == PublishedBy(w, step.txn, rev) else v.log == w.log
  {
    hide Published, Opened, Forget, Inv;
  }

  /** The record was there before, and so was its history. */
  ghost predicate OldRecord(w: World, v: World, id: nat) {
    && id in v.store.records && id in w.store.records && v.store.records[id] == w.store.records[id]
    && id in v.log && id in w.log && v.log[id] == w.log[id]
  }

  /** The record is that of a call that has written, and the history tells what it wrote. */
  ghost predicate NewRecord(w: World, i: nat, v: World, id: nat) {
    && i in w.txns && w.txns[i].phase.EditWrote?
    && id in v.store.records && v.store.records[id].target == w.txns[i].target
    && id in v.log && v.log[id] == w.txns[i].phase.swap
  }

  lemma PublishedRecord(w: World, i: nat, v: World, id: nat, rev: string -> string)
    requires WorldOk(w, rev) && CanPublish(w, i) && v == PublishedBy(w, i, rev) && id in v.store.records
    ensures OldRecord(w, v, id) || NewRecord(w, i, v, id)
  {
    hide Published;
    var txn := w.txns[i];
    PublishStore(w.store, txn.lease, EditedOf(txn, txn.phase.swap, rev));
  }

  lemma KeptRecord(w: World, step: Step, v: World, id: nat, rev: string -> string)
    requires WorldOk(w, rev) && Next(w, step, v, rev) && !step.PublishEdit? && id in v.store.records
    ensures OldRecord(w, v, id)
  {
    hide Stepped;
    StepLogs(w, step, v, rev);
    StepKeepsStore(w, step, v, rev);
  }

  lemma RecordOrigin(w: World, step: Step, v: World, id: nat, rev: string -> string)
    requires WorldOk(w, rev) && Next(w, step, v, rev) && id in v.store.records
    ensures OldRecord(w, v, id) || (step.PublishEdit? && NewRecord(w, step.txn, v, id))
  {
    hide Stepped, WorldOk, OldRecord, NewRecord, PublishedBy;
    StepLogs(w, step, v, rev);
    if step.PublishEdit? { PublishedRecord(w, step.txn, v, id, rev); } else { KeptRecord(w, step, v, id, rev); }
  }

  lemma {:induction false} CallStems(worlds: seq<World>, steps: seq<Step>, rev: string -> string, n: nat, i: nat)
    requires Run(worlds, steps, rev, n) && i in worlds[n].txns && worlds[n].txns[i].phase.EditWrote?
    ensures Stems(worlds, steps, n, worlds[n].txns[i].target, worlds[n].txns[i].phase.swap)
  {
    hide Stepped;
    if n > 0 {
      var w, v := worlds[n - 1], worlds[n];
      WrittenCall(w, steps[n - 1], v, i, rev);
      if !Wrote(w, steps[n - 1], v.txns[i].target, v.txns[i].phase.swap) { CallStems(worlds, steps, rev, n - 1, i); }
    }
  }

  lemma {:induction false} RecordStems(worlds: seq<World>, steps: seq<Step>, rev: string -> string, n: nat, id: nat)
    requires Run(worlds, steps, rev, n) && id in worlds[n].store.records
    ensures id in worlds[n].log && Stems(worlds, steps, n, worlds[n].store.records[id].target, worlds[n].log[id])
  {
    hide Stepped, WorldOk, Wrote;
    if n > 0 {
      var w, step, v := worlds[n - 1], steps[n - 1], worlds[n];
      RunOk(worlds, steps, rev, n - 1);
      RecordOrigin(w, step, v, id, rev);
      if OldRecord(w, v, id) {
        RecordStems(worlds, steps, rev, n - 1, id);
      } else {
        CallStems(worlds, steps, rev, n - 1, step.txn);
      }
    }
  }

  lemma StepCommits(w: World, step: Step, v: World, rev: string -> string)
    requires Next(w, step, v, rev) && step.Commit?
    ensures CanCommit(w, step.txn) && v == Committed(w, step.txn)
  {
  }

  /** A rollback that succeeds in a run undoes a write of that run: the file is what that
      write left, as far as size and revision tell, and becomes what the write found. */
  lemma RollbackUndoesWrite(worlds: seq<World>, steps: seq<Step>, rev: string -> string, k: nat) returns (j: nat)
    requires Run(worlds, steps, rev, |steps|) && k < |steps| && steps[k].Commit?
    ensures j < k && steps[j].WriteFile? && steps[j].txn in worlds[j].txns && steps[k].txn in worlds[k].txns
    ensures var t := worlds[k].txns[steps[k].txn].target;
            && worlds[j].txns[steps[j].txn].target == t
            && Alike(BytesOf(worlds[k].files, t), Some(steps[j].after), rev)
            && Alike(BytesOf(worlds[k + 1].files, t), BytesOf(worlds[j].files, t), rev)
  {
    hide Stepped, WorldOk, Committed;
    var w, v, i := worlds[k], worlds[k + 1], steps[k].txn;
    RunStep(worlds, steps, rev, k, |steps|);
    RunPart(worlds, steps, rev, k, |steps|);
    StepCommits(w, steps[k], v, rev);
    CommitUndoes(w, i, v, rev);
    var r := w.txns[i].phase.confirmed;
    RecordStems(worlds, steps, rev, k, r.id);
    j :| 0 <= j < k && Wrote(worlds[j], steps[j], r.target, w.log[r.id]);
  }

  /** With revisions that tell contents apart it leaves exactly what the write found. */
  lemma RollbackRestoresBytes(worlds: seq<World>, steps: seq<Step>, rev: string -> string, k: nat) returns (j: nat)
    requires Run(worlds, steps, rev, |steps|) && k < |steps| && steps[k].Commit?
    requires forall a, b :: rev(a) == rev(b) ==> a == b
    ensures j < k && steps[j].WriteFile? && steps[j].txn in worlds[j].txns && steps[k].txn in worlds[k].txns
    ensures var t := worlds[k].txns[steps[k].txn].target;
            && worlds[j].txns[steps[j].txn].target == t
            && BytesOf(worlds[k].files, t) == Some(steps[j].after)
            && BytesOf(worlds[k + 1].files, t) == BytesOf(worlds[j].files, t)
  {
    hide Stepped, WorldOk;
    j := RollbackUndoesWrite(worlds, steps, rev, k);
  }

  // ---- a rollback that nothing interferes with succeeds ----------------------------------------------------

  /** What has to be the case for a rollback through `lease` to go on with the target's record. */
  ghost predicate Restorable(w: World, lease: nat, path: string, t: string, rev: string -> string) {
    && InForce(w, lease) && (forall i :: i in w.txns ==> w.txns[i].target != t)
    && t in w.store.heap[lease].files && PathStays(w.store.heap[lease].files, path, t)
    && var r := w.store.heap[lease].files[t];
       && Leads(w, path, t) && Leads(w, r.path, t)
       && t in w.files && |w.files[t].bytes| == r.afterSize && rev(w.files[t].bytes) == r.revisionAfter
  }

  /** The target has its backup back, all other files are as they were, the record is gone and
      the call over. */
  ghost predicate RestoredBy(w: World, lease: nat, t: string, v: World) {
    && lease < |w.store.heap| && t in w.store.heap[lease].files
    && lease < |v.store.heap| && t !in v.store.heap[lease].files
    && var r := w.store.heap[lease].files[t];
       && (if r.created then t !in v.files else t in v.files && v.files[t].bytes == r.before)
       && (forall u :: u != t ==> BytesOf(v.files, u) == BytesOf(w.files, u))
       && r.id in w.store.records && r.id !in v.store.records
       && v.txns == w.txns
  }

  lemma BeginPossible(w: World, i: nat, lease: nat, path: string, t: string, v: World, rev: string -> string)
    requires Inv(w.store) && CanBegin(w, i, lease, t)
    requires v == w.(txns := w.txns[i := Txn(lease, path, t, RollbackBegun(0))])
    ensures Next(w, BeginRollback(i, lease, path, t, 0), v, rev)
  {
    hide Inv, Published, Opened, Forget;
  }

  lemma LoadPossible(w: World, i: nat, r: Record, v: World, rev: string -> string)
    requires Inv(w.store) && i in w.txns && w.txns[i].phase.RollbackBegun? && LoadedBy(w, w.txns[i], rev) == Ok(r)
    requires v == Advance(w, i, RollbackLoaded(r))
    ensures Next(w, LoadRecord(i), v, rev)
  {
    hide Inv, Published, Opened, Forget, LoadedBy;
  }

  lemma ConfirmPossible(w: World, i: nat, v: World, rev: string -> string)
    requires Inv(w.store) && CanConfirm(w, i, rev) && v == Confirmed(w, i, rev)
    ensures Next(w, ConfirmFile(i), v, rev)
  {
    hide Inv, Published, Opened, Forget;
  }

  lemma CommitPossible(w: World, i: nat, v: World, rev: string -> string)
    requires Inv(w.store) && CanCommit(w, i) && v == Committed(w, i)
    ensures Next(w, Commit(i), v, rev)
  {
    hide Inv, Published, Opened, Forget;
  }

  lemma CommitDone(w: World, c: World, i: nat, r: Record, lease: nat, t: string)
    requires lease < |w.store.heap| && t in w.store.heap[lease].files && w.store.heap[lease].files[t] == r
    requires c.files == w.files && c.store == w.store && CanCommit(c, i) && c.txns[i].phase.confirmed == r
    requires r.target == t && r.scope == lease && r.id in w.store.records
    requires i !in w.txns && c.txns == w.txns[i := c.txns[i]]
    ensures RestoredBy(w, lease, t, Committed(c, i))
  {
    assert c.txns - {i} == w.txns;
  }

  lemma RestorableRecord(w: World, lease: nat, path: string, t: string, rev: string -> string)
    requires Inv(w.store) && Restorable(w, lease, path, t, rev)
    ensures var r := w.store.heap[lease].files[t];
            r.target == t && r.scope == lease && r.id in w.store.records && w.store.records[r.id] == r
  {
    assert FileRecorded(w.store.records, lease, t, w.store.heap[lease].files[t]);
  }

  lemma RestorableLoads(w: World, i: nat, lease: nat, path: string, t: string, begun: World, rev: string -> string)
    requires Inv(w.store) && Restorable(w, lease, path, t, rev)
    requires begun == w.(txns := w.txns[i := Txn(lease, path, t, RollbackBegun(0))])
    ensures LoadedBy(begun, begun.txns[i], rev) == Ok(w.store.heap[lease].files[t])
  {
    hide Inv;
    RestorableRecord(w, lease, path, t, rev);
  }

  /** Then its steps are possible in turn and restore what the record holds. */
  lemma RollbackSucceeds(w: World, i: nat, lease: nat, path: string, t: string, rev: string -> string)
    returns (begun: World, loaded: World, confirmed: World, done: World)
    requires Inv(w.store) && i !in w.txns && Restorable(w, lease, path, t, rev)
    ensures Next(w, BeginRollback(i, lease, path, t, 0), begun, rev) && Next(begun, LoadRecord(i), loaded, rev)
    ensures Next(loaded, ConfirmFile(i), confirmed, rev) && Next(confirmed, Commit(i), done, rev)
    ensures RestoredBy(w, lease, t, done)
  {
    hide Stepped, Committed, RestoredBy, Inv, LoadedBy;
    var r := w.store.heap[lease].files[t];
    RestorableRecord(w, lease, path, t, rev);
    begun := w.(txns := w.txns[i := Txn(lease, path, t, RollbackBegun(0))]);
    BeginPossible(w, i, lease, path, t, begun, rev);
    RestorableLoads(w, i, lease, path, t, begun, rev);
    loaded := Advance(begun, i, RollbackLoaded(r));
    LoadPossible(begun, i, r, loaded, rev);
    confirmed := Confirmed(loaded, i, rev);
    ConfirmPossible(loaded, i, confirmed, rev);
    done := Committed(confirmed, i);
    CommitPossible(confirmed, i, done, rev);
    CommitDone(w, confirmed, i, r, lease, t);
  }

  /** Forgetting a binding forgets its lease. */
  lemma ForgettingEndsLease(w: World, b: Binding, v: World, rev: string -> string)
    requires WorldOk(w, rev) && v == w.(store := Forget(w.store, b)) && b in w.store.scopes
    ensures w.store.scopes[b] < |v.store.heap| && !LeaseCurrent(v.store, w.store.scopes[b])
  {
    ForgetInv(w.store, b);
  }
}
