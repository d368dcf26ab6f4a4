/** The bounded store of rollback records: scopes and records that index each other, byte
    accounting, and eviction of the oldest. */
module RollbackStore {
  import opened Options

  type Binding = nat

  /** A backup of one edited target; `scope` is the number of the scope object that owns it. */
  datatype Record = Record(id: nat, scope: nat, path: string, target: string, created: bool, before: string,
                           revisionBefore: string, revisionAfter: string, afterSize: nat)

  datatype Scope = Scope(binding: Binding, files: map<string, Record>)

  /** `heap` holds every scope object ever made; `scopes` names the current one of a binding. */
  datatype Store = Store(heap: seq<Scope>, scopes: map<Binding, nat>, records: map<nat, Record>,
                         nextID: nat, bytes: int, maxBytes: nat, maxRecords: nat)

  // ---- the invariant --------------------------------------------------------------------------

  /** The bytes of the records with IDs up to `n`. */
  function Total(records: map<nat, Record>, n: nat): nat {
    if n == 0 then 0 else Total(records, n - 1) + (if n in records then |records[n].before| else 0)
  }

  ghost predicate RecordFiled(heap: seq<Scope>, scopes: map<Binding, nat>, r: Record) {
    && r.scope < |heap| && r.target in heap[r.scope].files && heap[r.scope].files[r.target] == r
    && heap[r.scope].binding in scopes && scopes[heap[r.scope].binding] == r.scope
  }

  ghost predicate RecordsFiled(heap: seq<Scope>, scopes: map<Binding, nat>, records: map<nat, Record>, nextID: nat) {
    forall k :: k in records ==> records[k].id == k && 0 < k <= nextID && RecordFiled(heap, scopes, records[k])
  }

  ghost predicate FileRecorded(records: map<nat, Record>, i: nat, t: string, r: Record) {
    r.target == t && r.scope == i && r.id in records && records[r.id] == r
  }

  ghost predicate FilesRecorded(heap: seq<Scope>, records: map<nat, Record>) {
    forall i, t :: 0 <= i < |heap| && t in heap[i].files ==> FileRecorded(records, i, t, heap[i].files[t])
  }

  ghost predicate ScopesNamed(heap: seq<Scope>, scopes: map<Binding, nat>) {
    forall b :: b in scopes ==> scopes[b] < |heap| && heap[scopes[b]].binding == b
  }

  ghost predicate Indexed(s: Store) {
    && RecordsFiled(s.heap, s.scopes, s.records, s.nextID)
    && FilesRecorded(s.heap, s.records) && ScopesNamed(s.heap, s.scopes)
  }

  ghost predicate Inv(s: Store) {
    Indexed(s) && s.bytes == Total(s.records, s.nextID)
  }

  predicate Fits(s: Store) { s.bytes <= s.maxBytes && |s.records.Keys| <= s.maxRecords }

  // ---- the operations --------------------------------------------------------------------------

  function Dropped(heap: seq<Scope>, r: Record): seq<Scope>
    requires r.scope < |heap|
  {
    heap[r.scope := heap[r.scope].(files := heap[r.scope].files - {r.target})]
  }

  /** removeLocked */
  function Without(s: Store, r: Record): Store
    requires r.scope < |s.heap|
  {
    s.(records := s.records - {r.id}, heap := Dropped(s.heap, r), bytes := s.bytes - |r.before|)
  }

  function Outside(records: map<nat, Record>, i: nat): map<nat, Record> {
    map k | k in records && records[k].scope != i :: records[k]
  }

  /** The scope's records are gone, and its files. */
  function Cleared(s: Store, i: nat): Store
    requires i < |s.heap|
  {
    s.(records := Outside(s.records, i), heap := s.heap[i := s.heap[i].(files := map[])],
       bytes := Total(Outside(s.records, i), s.nextID))
  }

  function Forget(s: Store, b: Binding): Store
    requires Inv(s)
  {
    if b in s.scopes then Cleared(s, s.scopes[b]).(scopes := s.scopes - {b}) else s
  }

  function LiveRecords(heap: seq<Scope>, records: map<nat, Record>, valid: set<Binding>): map<nat, Record> {
    map k | k in records && records[k].scope < |heap| && heap[records[k].scope].binding in valid :: records[k]
  }

  function LiveHeap(heap: seq<Scope>, valid: set<Binding>): seq<Scope> {
    seq(|heap|, i requires 0 <= i < |heap| => if heap[i].binding in valid then heap[i] else heap[i].(files := map[]))
  }

  /** Every binding that is not valid any more has been forgotten. */
  function Reclaimed(s: Store, valid: set<Binding>): Store {
    s.(scopes := map b | b in s.scopes && b in valid :: s.scopes[b],
       heap := LiveHeap(s.heap, valid),
       records := LiveRecords(s.heap, s.records, valid),
       bytes := Total(LiveRecords(s.heap, s.records, valid), s.nextID))
  }

  /** Session for a valid binding: the store after it, and the lease. */
  function Opened(s: Store, b: Binding, valid: set<Binding>): (Store, nat)
  {
    var t := Reclaimed(s, valid);
    if b in t.scopes then (t, t.scopes[b])
    else (t.(heap := t.heap + [Scope(b, map[])], scopes := t.scopes[b := |t.heap|]), |t.heap|)
  }

  /** A lease is good while its binding is valid and names the very scope it was given. */
  predicate LeaseValid(s: Store, lease: nat, valid: set<Binding>) {
    lease < |s.heap| && s.heap[lease].binding in valid && LeaseCurrent(s, lease)
  }

  predicate LeaseCurrent(s: Store, lease: nat) {
    lease < |s.heap| && s.heap[lease].binding in s.scopes && s.scopes[s.heap[lease].binding] == lease
  }

  /** What an edit has to say about itself. */
  datatype Edited = Edited(path: string, target: string, created: bool, before: string,
                           revisionBefore: string, revisionAfter: string, afterSize: nat)

  function RecordOf(e: Edited, id: nat, lease: nat): Record {
    Record(id, lease, e.path, e.target, e.created, e.before, e.revisionBefore, e.revisionAfter, e.afterSize)
  }

  function Replaced(s: Store, lease: nat, target: string): Store
    requires Inv(s) && lease < |s.heap|
  {
    if target in s.heap[lease].files then
      assert FileRecorded(s.records, lease, target, s.heap[lease].files[target]);
      Without(s, s.heap[lease].files[target])
    else s
  }

  function Filed(heap: seq<Scope>, r: Record): seq<Scope>
    requires r.scope < |heap|
  {
    heap[r.scope := heap[r.scope].(files := heap[r.scope].files[r.target := r])]
  }

  function Added(s: Store, r: Record): Store
    requires r.scope < |s.heap|
  {
    s.(nextID := r.id, records := s.records[r.id := r], heap := Filed(s.heap, r), bytes := s.bytes + |r.before|)
  }

  function FirstFrom(records: map<nat, Record>, n: nat, hi: nat): (k: nat)
    requires exists k :: n <= k <= hi && k in records
    ensures n <= k <= hi && k in records && forall j :: n <= j < k ==> j !in records
    decreases hi - n
  {
    if n in records then n else FirstFrom(records, n + 1, hi)
  }

  lemma {:induction false} TotalEmpty(n: nat)
    ensures Total(map[], n) == 0
  {
    if n > 0 { TotalEmpty(n - 1); }
  }

  /** Over the limits there is a record to evict. */
  lemma HasOldest(s: Store)
    requires Inv(s) && !Fits(s)
    ensures exists k :: 1 <= k <= s.nextID && k in s.records
  {
    if s.records == map[] {
      TotalEmpty(s.nextID);
    } else {
      var k :| k in s.records;
      assert 1 <= k <= s.nextID;
    }
  }

  function Oldest(s: Store): (k: nat)
    requires Inv(s) && !Fits(s)
    ensures k in s.records && forall j :: j in s.records ==> k <= j
  {
    HasOldest(s);
    FirstFrom(s.records, 1, s.nextID)
  }

  /** The eviction loop: the oldest record goes until the rest fits. */
  function Evicted(s: Store): Store
    requires Inv(s)
    decreases |s.records.Keys|
  {
    if Fits(s) then s
    else
      var r := s.records[Oldest(s)];
      WithoutInv(s, r);
      FewerRecords(s.records, r.id);
      Evicted(Without(s, r))
  }

  /** The store with the record of an edit in place of the one for the same target. */
  function Entered(s: Store, lease: nat, e: Edited): Store
    requires Inv(s) && lease < |s.heap|
  {
    Added(Replaced(s, lease, e.target), RecordOf(e, s.nextID + 1, lease))
  }

  function Published(s: Store, lease: nat, e: Edited): Store
    requires Inv(s) && LeaseCurrent(s, lease)
  {
    EnteredInv(s, lease, e);
    Evicted(Entered(s, lease, e))
  }

  // ---- removing one record ---------------------------------------------------------------------

  lemma FewerRecords(records: map<nat, Record>, k: nat)
    requires k in records
    ensures |(records - {k}).Keys| == |records.Keys| - 1
  {
    assert (records - {k}).Keys == records.Keys - {k};
  }

  lemma {:induction false} TotalWithout(records: map<nat, Record>, k: nat, n: nat)
    requires k in records && 0 < k
    ensures Total(records - {k}, n) == Total(records, n) - (if k <= n then |records[k].before| else 0)
  {
    if n > 0 { TotalWithout(records, k, n - 1); }
  }

  lemma DroppedFiles(heap: seq<Scope>, scopes: map<Binding, nat>, records: map<nat, Record>, nextID: nat, r: Record)
    requires RecordsFiled(heap, scopes, records, nextID) && FilesRecorded(heap, records) && r.id in records
             && records[r.id] == r
    ensures r.scope < |heap| && FilesRecorded(Dropped(heap, r), records - {r.id})
  {
    assert RecordFiled(heap, scopes, r);
    var after, fewer := Dropped(heap, r), records - {r.id};
    forall i, t | 0 <= i < |after| && t in after[i].files ensures FileRecorded(fewer, i, t, after[i].files[t]) {
      assert FileRecorded(records, i, t, heap[i].files[t]);
    }
  }

  lemma DroppedRecords(heap: seq<Scope>, scopes: map<Binding, nat>, records: map<nat, Record>, nextID: nat, r: Record)
    requires RecordsFiled(heap, scopes, records, nextID) && r.id in records && records[r.id] == r && r.scope < |heap|
    ensures RecordsFiled(Dropped(heap, r), scopes, records - {r.id}, nextID)
  {
    var after, fewer := Dropped(heap, r), records - {r.id};
    assert RecordFiled(heap, scopes, r);
    forall k | k in fewer ensures RecordFiled(after, scopes, fewer[k]) {
      assert RecordFiled(heap, scopes, records[k]);
    }
  }

  lemma WithoutInv(s: Store, r: Record)
    requires Inv(s) && r.id in s.records && s.records[r.id] == r
    ensures r.scope < |s.heap| && Inv(Without(s, r))
  {
    DroppedFiles(s.heap, s.scopes, s.records, s.nextID, r);
    DroppedRecords(s.heap, s.scopes, s.records, s.nextID, r);
    TotalWithout(s.records, r.id, s.nextID);
  }

  lemma ReplacedInv(s: Store, lease: nat, target: string)
    requires Inv(s) && LeaseCurrent(s, lease)
    ensures var t := Replaced(s, lease, target);
            && Inv(t) && LeaseCurrent(t, lease) && target !in t.heap[lease].files && t.nextID == s.nextID
            && t.maxBytes == s.maxBytes && t.maxRecords == s.maxRecords
  {
    if target in s.heap[lease].files {
      assert FileRecorded(s.records, lease, target, s.heap[lease].files[target]);
      WithoutInv(s, s.heap[lease].files[target]);
    }
  }

  // ---- adding one --------------------------------------------------------------------------------

  lemma {:induction false} TotalAdded(records: map<nat, Record>, k: nat, r: Record, n: nat)
    requires n < k
    ensures Total(records[k := r], n) == Total(records, n)
  {
    if n > 0 { TotalAdded(records, k, r, n - 1); }
  }

  lemma AddedInv(s: Store, r: Record)
    requires Inv(s) && LeaseCurrent(s, r.scope) && r.target !in s.heap[r.scope].files && r.id == s.nextID + 1
    ensures Inv(Added(s, r))
  {
    var t := Added(s, r);
    assert r.id !in s.records;
    TotalAdded(s.records, r.id, r, s.nextID);
    forall k | k in t.records
      ensures t.records[k].id == k && 0 < k <= t.nextID && RecordFiled(t.heap, t.scopes, t.records[k])
    {
      if k != r.id { assert RecordFiled(s.heap, s.scopes, s.records[k]); }
    }
    forall i, x | 0 <= i < |t.heap| && x in t.heap[i].files ensures FileRecorded(t.records, i, x, t.heap[i].files[x]) {
      if !(i == r.scope && x == r.target) { assert FileRecorded(s.records, i, x, s.heap[i].files[x]); }
    }
  }

  lemma EnteredInv(s: Store, lease: nat, e: Edited)
    requires Inv(s) && LeaseCurrent(s, lease)
    ensures Inv(Entered(s, lease, e))
  {
    ReplacedInv(s, lease, e.target);
    AddedTo(Replaced(s, lease, e.target), lease, e, Entered(s, lease, e));
  }

  lemma AddedTo(s: Store, lease: nat, e: Edited, t: Store)
    requires Inv(s) && LeaseCurrent(s, lease) && e.target !in s.heap[lease].files
    requires t == Added(s, RecordOf(e, s.nextID + 1, lease))
    ensures Inv(t)
  {
    AddedInv(s, RecordOf(e, s.nextID + 1, lease));
  }

  // ---- forgetting --------------------------------------------------------------------------------

  lemma ClearedInv(s: Store, i: nat)
    requires Inv(s) && i < |s.heap|
    ensures Inv(Cleared(s, i))
  {
    var t := Cleared(s, i);
    forall k | k in t.records ensures RecordFiled(t.heap, t.scopes, t.records[k]) {
      assert RecordFiled(s.heap, s.scopes, s.records[k]);
    }
    forall j, x | 0 <= j < |t.heap| && x in t.heap[j].files ensures FileRecorded(t.records, j, x, t.heap[j].files[x]) {
      assert FileRecorded(s.records, j, x, s.heap[j].files[x]);
    }
  }

  lemma ForgetInv(s: Store, b: Binding)
    requires Inv(s)
    ensures Inv(Forget(s, b)) && b !in Forget(s, b).scopes
  {
    if b in s.scopes {
      var i := s.scopes[b];
      ClearedInv(s, i);
      var c, t := Cleared(s, i), Forget(s, b);
      forall k | k in t.records ensures RecordFiled(t.heap, t.scopes, t.records[k]) {
        assert RecordFiled(c.heap, c.scopes, c.records[k]);
      }
    }
  }

  lemma ReclaimedInv(s: Store, valid: set<Binding>)
    requires Inv(s)
    ensures Inv(Reclaimed(s, valid)) && |Reclaimed(s, valid).heap| == |s.heap|
  {
    var t := Reclaimed(s, valid);
    forall k | k in t.records ensures RecordFiled(t.heap, t.scopes, t.records[k]) {
      assert RecordFiled(s.heap, s.scopes, s.records[k]);
    }
    forall j, x | 0 <= j < |t.heap| && x in t.heap[j].files ensures FileRecorded(t.records, j, x, t.heap[j].files[x]) {
      assert FileRecorded(s.records, j, x, s.heap[j].files[x]);
    }
  }

  lemma FileIsLive(s: Store, i: nat, x: string)
    requires Inv(s) && i < |s.heap| && x in s.heap[i].files
    ensures LeaseCurrent(s, i)
  {
    assert FileRecorded(s.records, i, x, s.heap[i].files[x]);
    assert RecordFiled(s.heap, s.scopes, s.records[s.heap[i].files[x].id]);
  }

  /** A scope object that its binding does not name any more has no files. */
  lemma DeadIsEmpty(s: Store, i: nat)
    requires Inv(s) && i < |s.heap|
    ensures s.heap[i].files == map[] || LeaseCurrent(s, i)
  {
    if s.heap[i].files != map[] {
      var x :| x in s.heap[i].files;
      FileIsLive(s, i, x);
    }
  }

  lemma ForgetRecords(s: Store, valid: set<Binding>, b: Binding)
    requires Inv(s) && b !in valid && b in s.scopes
    ensures Outside(LiveRecords(s.heap, s.records, valid + {b}), s.scopes[b]) == LiveRecords(s.heap, s.records, valid)
  {
    forall k | k in s.records ensures RecordFiled(s.heap, s.scopes, s.records[k]) {}
  }

  lemma ForgetFiles(s: Store, valid: set<Binding>, b: Binding)
    requires Inv(s) && b !in valid && b in s.scopes
    ensures var i := s.scopes[b];
            var live := LiveHeap(s.heap, valid + {b});
            i < |s.heap| && live[i := live[i].(files := map[])] == LiveHeap(s.heap, valid)
  {
    forall j | 0 <= j < |s.heap| && j != s.scopes[b] && s.heap[j].binding == b
      ensures s.heap[j].files == map[]
    {
      DeadIsEmpty(s, j);
    }
  }

  lemma NothingToForget(s: Store, valid: set<Binding>, b: Binding)
    requires Inv(s) && b !in valid && b !in s.scopes
    ensures LiveHeap(s.heap, valid + {b}) == LiveHeap(s.heap, valid)
    ensures LiveRecords(s.heap, s.records, valid + {b}) == LiveRecords(s.heap, s.records, valid)
  {
    forall j | 0 <= j < |s.heap| && s.heap[j].binding == b ensures s.heap[j].files == map[] { DeadIsEmpty(s, j); }
    forall k | k in s.records ensures RecordFiled(s.heap, s.scopes, s.records[k]) {}
  }

  /** Forgetting one binding more. */
  lemma ReclaimStep(s: Store, valid: set<Binding>, b: Binding)
    requires Inv(s) && b !in valid
    ensures Inv(Reclaimed(s, valid + {b})) && Forget(Reclaimed(s, valid + {b}), b) == Reclaimed(s, valid)
  {
    ReclaimedInv(s, valid + {b});
    var t, u := Reclaimed(s, valid + {b}), Reclaimed(s, valid);
    if b in s.scopes {
      ForgetRecords(s, valid, b);
      ForgetFiles(s, valid, b);
      assert t.scopes - {b} == u.scopes;
    } else {
      NothingToForget(s, valid, b);
      assert t.scopes == u.scopes;
    }
  }

  /** With every binding valid there is nothing to reclaim. */
  lemma ReclaimNothing(s: Store, valid: set<Binding>)
    requires Inv(s) && forall b :: b in s.scopes ==> b in valid
    ensures Reclaimed(s, valid) == s
  {
    var t := Reclaimed(s, valid);
    forall k | k in s.records ensures k in t.records { assert RecordFiled(s.heap, s.scopes, s.records[k]); }
    assert t.records == s.records && t.scopes == s.scopes;
    forall i | 0 <= i < |s.heap| && s.heap[i].binding !in valid ensures s.heap[i].files == map[] { DeadIsEmpty(s, i); }
    assert t.heap == s.heap;
  }

  lemma OpenedInv(s: Store, b: Binding, valid: set<Binding>)
    requires Inv(s) && b in valid
    ensures Inv(Opened(s, b, valid).0) && LeaseValid(Opened(s, b, valid).0, Opened(s, b, valid).1, valid)
    ensures Opened(s, b, valid).0.heap[Opened(s, b, valid).1].binding == b
  {
    ReclaimedInv(s, valid);
    var t, u := Reclaimed(s, valid), Opened(s, b, valid).0;
    if b !in t.scopes {
      forall k | k in u.records ensures RecordFiled(u.heap, u.scopes, u.records[k]) {
        assert RecordFiled(t.heap, t.scopes, t.records[k]);
      }
      forall j, x | 0 <= j < |u.heap| && x in u.heap[j].files
        ensures FileRecorded(u.records, j, x, u.heap[j].files[x])
      {
        assert FileRecorded(t.records, j, x, t.heap[j].files[x]);
      }
    }
  }

  // ---- eviction -----------------------------------------------------------------------------------

  /** The records with an ID above `cut`. */
  function Newer(records: map<nat, Record>, cut: nat): map<nat, Record> {
    map k | k in records && k > cut :: records[k]
  }

  predicate RecordsFit(records: map<nat, Record>, nextID: nat, maxBytes: nat, maxRecords: nat) {
    Total(records, nextID) <= maxBytes && |records.Keys| <= maxRecords
  }

  lemma {:induction false} TotalGrows(some: map<nat, Record>, more: map<nat, Record>, n: nat)
    requires forall k :: k in some ==> k in more && more[k] == some[k]
    ensures Total(some, n) <= Total(more, n)
  {
    if n > 0 { TotalGrows(some, more, n - 1); }
  }

  lemma CountGrows(some: map<nat, Record>, more: map<nat, Record>)
    requires forall k :: k in some ==> k in more
    ensures |some.Keys| <= |more.Keys|
  {
    SubsetSize(some.Keys, more.Keys);
  }

  lemma SubsetSize(a: set<nat>, b: set<nat>)
    requires a <= b
    ensures |a| <= |b|
  {
    assert b == a + (b - a);
  }

  /** The highest ID that the eviction loop gives up; 0 when it gives up none. */
  function Cut(s: Store): (cut: nat)
    requires Inv(s)
    ensures cut > 0 ==> cut in s.records
    decreases |s.records.Keys|
  {
    if Fits(s) then 0
    else
      var r := s.records[Oldest(s)];
      WithoutInv(s, r);
      FewerRecords(s.records, r.id);
      var later := Cut(Without(s, r));
      if later == 0 then r.id else later
  }

  /** With a lower cut the records do not fit. */
  ghost predicate CutNeeded(records: map<nat, Record>, nextID: nat, maxBytes: nat, maxRecords: nat, cut: nat) {
    forall c :: 0 <= c < cut ==> !RecordsFit(Newer(records, c), nextID, maxBytes, maxRecords)
  }

  lemma NewerBelow(records: map<nat, Record>, k: nat, c: nat)
    requires c < k && forall j :: j in records ==> k <= j
    ensures Newer(records, c) == records
  {
  }

  lemma NewerWithout(records: map<nat, Record>, k: nat, c: nat)
    requires k <= c
    ensures Newer(records, c) == Newer(records - {k}, c)
  {
  }

  lemma CutStep(records: map<nat, Record>, fewer: map<nat, Record>, nextID: nat, maxBytes: nat, maxRecords: nat,
                k: nat, later: nat)
    requires fewer == records - {k} && forall j :: j in records ==> k <= j
    requires !RecordsFit(records, nextID, maxBytes, maxRecords)
    requires CutNeeded(fewer, nextID, maxBytes, maxRecords, later)
    ensures CutNeeded(records, nextID, maxBytes, maxRecords, if later == 0 then k else later)
  {
    hide Newer, RecordsFit;
    forall c | 0 <= c < (if later == 0 then k else later)
      ensures !RecordsFit(Newer(records, c), nextID, maxBytes, maxRecords)
    {
      if c < k { NewerBelow(records, k, c); } else { NewerWithout(records, k, c); }
    }
  }

  lemma NewerStep(records: map<nat, Record>, fewer: map<nat, Record>, k: nat, later: nat)
    requires fewer == records - {k} && 0 < k && (forall j :: j in records ==> k <= j) && (later == 0 || later in fewer)
    ensures Newer(fewer, later) == Newer(records, if later == 0 then k else later)
  {
  }

  /** One round of the loop. */
  lemma EvictOne(s: Store) returns (k: nat, t: Store)
    requires Inv(s) && !Fits(s)
    ensures k in s.records && 0 < k && forall j :: j in s.records ==> k <= j
    ensures s.records[k].scope < |s.heap| && t == Without(s, s.records[k])
    ensures Inv(t) && |t.records.Keys| < |s.records.Keys| && t.records == s.records - {k}
    ensures t.nextID == s.nextID && t.maxBytes == s.maxBytes && t.maxRecords == s.maxRecords
    ensures Evicted(s) == Evicted(t) && Cut(s) == if Cut(t) == 0 then k else Cut(t)
  {
    k := Oldest(s);
    WithoutInv(s, s.records[k]);
    FewerRecords(s.records, k);
    t := Without(s, s.records[k]);
  }

  lemma {:induction false} EvictedInv(s: Store)
    requires Inv(s)
    ensures Inv(Evicted(s)) && Fits(Evicted(s))
    decreases |s.records.Keys|
  {
    if !Fits(s) {
      var k, t := EvictOne(s);
      EvictedInv(t);
    }
  }

  lemma NewerAll(s: Store)
    requires Inv(s)
    ensures Newer(s.records, 0) == s.records
  {
  }

  lemma {:induction false} EvictedIsNewer(s: Store)
    requires Inv(s)
    ensures Evicted(s).records == Newer(s.records, Cut(s))
    decreases |s.records.Keys|
  {
    hide Newer, Indexed, Total;
    if Fits(s) {
      NewerAll(s);
    } else {
      var k, t := EvictOne(s);
      EvictedIsNewer(t);
      NewerStep(s.records, t.records, k, Cut(t));
    }
  }

  lemma {:induction false} CutIsNeeded(s: Store)
    requires Inv(s)
    ensures CutNeeded(s.records, s.nextID, s.maxBytes, s.maxRecords, Cut(s))
    decreases |s.records.Keys|
  {
    if !Fits(s) {
      var k, t := EvictOne(s);
      CutIsNeeded(t);
      CutStep(s.records, t.records, s.nextID, s.maxBytes, s.maxRecords, k, Cut(t));
    }
  }

  /** Eviction leaves the longest run of newest records that fits: those above the cut, and
      with any lower cut the records would be too many or too large. */
  lemma EvictionLeavesNewest(s: Store)
    requires Inv(s)
    ensures Evicted(s).records == Newer(s.records, Cut(s))
    ensures CutNeeded(s.records, s.nextID, s.maxBytes, s.maxRecords, Cut(s))
  {
    EvictedIsNewer(s);
    CutIsNeeded(s);
  }

  lemma {:induction false} EvictedKept(s: Store, id: nat)
    requires Inv(s)
    ensures Evicted(s).nextID == s.nextID
    ensures id in Evicted(s).records ==> id in s.records && Evicted(s).records[id] == s.records[id]
    decreases |s.records.Keys|
  {
    if !Fits(s) {
      var k, t := EvictOne(s);
      EvictedKept(t, id);
    }
  }

  /** A published edit leaves the store within its limits. */
  lemma PublishedInv(s: Store, lease: nat, e: Edited)
    requires Inv(s) && LeaseCurrent(s, lease)
    ensures Inv(Published(s, lease, e)) && Fits(Published(s, lease, e))
  {
    EnteredInv(s, lease, e);
    EvictedInv(Entered(s, lease, e));
  }
}
