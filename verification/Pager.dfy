/** Pages of a forked conversation, read from the newest backwards out of the branches it
    was forked from, against the whole history. */
module Pager {
  import opened Options

  /** `conversation` tells user and assistant messages with content from the others. */
  datatype Message = Message(id: string, conversation: bool)

  /** A session and where it was forked from; empty strings when it was not. */
  datatype Session = Session(parent: string, forkFrom: string)

  datatype Store = Store(sessions: map<string, Session>, messages: map<string, seq<Message>>)

  datatype LoadError = ForkTooDeep | SessionNotFound(id: string) | CheckpointNotFound(until: string)

  const MAX_FORK_DEPTH := 32

  // ---- the store ----------------------------------------------------------------------------

  function Own(store: Store, id: string): seq<Message> {
    if id in store.messages then store.messages[id] else []
  }

  /** The messages up to and including the first with ID `until`, all of them without an ID;
      none when it is not among them. */
  function UpTo(messages: seq<Message>, until: string): (r: Option<seq<Message>>)
    ensures until == "" ==> r == Some(messages)
    ensures until != "" ==> (r.None? <==> forall k :: 0 <= k < |messages| ==> messages[k].id != until)
    ensures until != "" && r.Some? ==>
              var n := |r.value|;
              && 0 < n <= |messages| && r.value == messages[..n] && messages[n - 1].id == until
              && forall k :: 0 <= k < n - 1 ==> messages[k].id != until
  {
    if until == "" then Some(messages)
    else if messages == [] then None
    else if messages[0].id == until then Some([messages[0]])
    else match UpTo(messages[1..], until)
         case None => None
         case Some(rest) => Some([messages[0]] + rest)
  }

  function Conversation(messages: seq<Message>): seq<Message> {
    if messages == [] then []
    else (if messages[0].conversation then [messages[0]] else []) + Conversation(messages[1..])
  }

  function NewestFirst(messages: seq<Message>): (r: seq<Message>)
    ensures |r| == |messages|
  {
    if messages == [] then [] else NewestFirst(messages[1..]) + [messages[0]]
  }

  /** At most `limit` messages from number `offset` on. */
  function Window(messages: seq<Message>, offset: nat, limit: nat): seq<Message> {
    if offset >= |messages| then []
    else if offset + limit >= |messages| then messages[offset..]
    else messages[offset..offset + limit]
  }

  // ---- the whole history ----------------------------------------------------------------------

  /** loadRawMessages: the parent's history up to the fork, then the session's own messages. */
  function LoadRaw(store: Store, id: string, until: string, depth: nat): Result<seq<Message>, LoadError>
    decreases MAX_FORK_DEPTH + 1 - depth
  {
    if depth > MAX_FORK_DEPTH then Err(ForkTooDeep)
    else if id !in store.sessions then Err(SessionNotFound(id))
    else
      var s := store.sessions[id];
      var older := if s.parent != "" && s.forkFrom != "" then LoadRaw(store, s.parent, s.forkFrom, depth + 1)
                   else Ok([]);
      if older.Err? then older
      else
        match UpTo(Own(store, id), until)
        case None => Err(CheckpointNotFound(until))
        case Some(own) => Ok(older.value + own)
  }

  /** The history a page is taken from: a cutoff that is not the session's own is one that it
      inherited, and is looked for further up. */
  function History(store: Store, id: string, until: string, depth: nat): Result<seq<Message>, LoadError>
    decreases MAX_FORK_DEPTH + 1 - depth
  {
    if depth > MAX_FORK_DEPTH then Err(ForkTooDeep)
    else if id !in store.sessions then Err(SessionNotFound(id))
    else
      var s := store.sessions[id];
      match UpTo(Own(store, id), until)
      case None => if s.parent == "" then Err(CheckpointNotFound(until)) else History(store, s.parent, until, depth + 1)
      case Some(own) =>
        if s.parent == "" || s.forkFrom == "" then Ok(own)
        else
          match History(store, s.parent, s.forkFrom, depth + 1)
          case Err(error) => Err(error)
          case Ok(older) => Ok(older + own)
  }

  /** Every cutoff on the way up is a message of the session it cuts off. */
  predicate OwnCutoffs(store: Store, id: string, until: string, depth: nat)
    decreases MAX_FORK_DEPTH + 1 - depth
  {
    depth <= MAX_FORK_DEPTH && id in store.sessions ==>
      var s := store.sessions[id];
      && UpTo(Own(store, id), until).Some?
      && (s.parent != "" && s.forkFrom != "" ==> OwnCutoffs(store, s.parent, s.forkFrom, depth + 1))
  }

  /** The raw history loads exactly when the paged one does and no cutoff is inherited, and
      then they are the same. */
  lemma {:induction false} RawHistory(store: Store, id: string, until: string, depth: nat)
    ensures LoadRaw(store, id, until, depth).Ok? <==>
              History(store, id, until, depth).Ok? && OwnCutoffs(store, id, until, depth)
    ensures LoadRaw(store, id, until, depth).Ok?
            ==> LoadRaw(store, id, until, depth) == History(store, id, until, depth)
    decreases MAX_FORK_DEPTH + 1 - depth
  {
    hide UpTo, Own;
    if depth <= MAX_FORK_DEPTH && id in store.sessions {
      var s := store.sessions[id];
      if s.parent != "" && s.forkFrom != "" { RawHistory(store, s.parent, s.forkFrom, depth + 1); }
      var own := UpTo(Own(store, id), until);
      if own.Some? { assert [] + own.value == own.value; }
    }
  }

  /** "old" is forked to "mid", and "mid" to "new" at a message that "mid" only inherited. */
  function InheritedFork(): Store {
    Store(map["old" := Session("", ""), "mid" := Session("old", "1"), "new" := Session("mid", "1")],
          map["old" := [Message("1", true)], "mid" := [Message("2", true)], "new" := [Message("3", true)]])
  }

  /** The raw history fails on an inherited cutoff that the paged history follows. */
  lemma InheritedCutoffDiffers()
    ensures LoadRaw(InheritedFork(), "new", "", 0) == Err(CheckpointNotFound("1"))
    ensures History(InheritedFork(), "new", "", 0) == Ok([Message("1", true), Message("3", true)])
  {
    var store := InheritedFork();
    var one, three := [Message("1", true)], [Message("3", true)];
    assert Own(store, "mid")[1..] == [] && [] + one == one;
    assert one + three == [Message("1", true), Message("3", true)];
    assert LoadRaw(store, "old", "1", 2) == Ok(one);
    assert LoadRaw(store, "mid", "1", 1) == Err(CheckpointNotFound("1"));
    assert History(store, "old", "1", 2) == Ok(one);
    assert History(store, "mid", "1", 1) == Ok(one);
  }

  /** Sessions whose parents never end, as those of a cycle: each is forked from another. */
  predicate Endless(store: Store, ids: set<string>) {
    forall id :: id in ids ==>
      && id in store.sessions && store.sessions[id].parent in ids
      && store.sessions[id].parent != "" && store.sessions[id].forkFrom != ""
  }

  /** Parents that never end, cyclic ones too, are given up at the depth bound, whatever
      other sessions there are. */
  lemma {:induction false} EndlessForksFail(store: Store, ids: set<string>, id: string, until: string, depth: nat)
    requires Endless(store, ids) && id in ids
    ensures History(store, id, until, depth) == Err(ForkTooDeep)
    ensures LoadRaw(store, id, until, depth) == Err(ForkTooDeep)
    decreases MAX_FORK_DEPTH + 1 - depth
  {
    if depth <= MAX_FORK_DEPTH {
      var s := store.sessions[id];
      EndlessForksFail(store, ids, s.parent, s.forkFrom, depth + 1);
      EndlessForksFail(store, ids, s.parent, until, depth + 1);
    }
  }

  /** Sessions each forked from the next at a message of the next; the last is forked from none. */
  ghost predicate ForkChain(store: Store, ids: seq<string>, until: string) {
    ids != [] ==>
      && ids[0] != "" && ids[0] in store.sessions && UpTo(Own(store, ids[0]), until).Some?
      && var s := store.sessions[ids[0]];
         if |ids| == 1 then s.parent == ""
         else s.parent == ids[1] && s.forkFrom != "" && ForkChain(store, ids[1..], s.forkFrom)
  }

  /** A chain of forks loads exactly when it is no longer than 33 sessions. */
  lemma {:induction false} ChainLoads(store: Store, ids: seq<string>, until: string, depth: nat)
    requires ids != [] && ForkChain(store, ids, until) && depth <= 33
    ensures History(store, ids[0], until, depth).Ok? <==> depth + |ids| <= 33
    ensures LoadRaw(store, ids[0], until, depth).Ok? <==> depth + |ids| <= 33
    ensures depth + |ids| > 33 ==> History(store, ids[0], until, depth) == Err(ForkTooDeep)
    ensures depth + |ids| > 33 ==> LoadRaw(store, ids[0], until, depth) == Err(ForkTooDeep)
    decreases |ids|
  {
    if |ids| > 1 && depth <= 32 { ChainLoads(store, ids[1..], store.sessions[ids[0]].forkFrom, depth + 1); }
  }

  // ---- a page -----------------------------------------------------------------------------------

  datatype MessagePage = MessagePage(messages: seq<Message>, totalPages: nat)

  /** How many of `n` messages come before the last `k`. */
  function BeforeLast(n: nat, k: nat): nat { if k >= n then 0 else n - k }

  /** Page `page` of a conversation, counted from its end. */
  function PageOf(conversation: seq<Message>, page: nat, pageSize: nat): seq<Message>
    requires 1 <= page
  {
    PageBounds(|conversation|, page, pageSize);
    conversation[BeforeLast(|conversation|, page * pageSize)..BeforeLast(|conversation|, (page - 1) * pageSize)]
  }

  lemma PageBounds(n: nat, page: nat, pageSize: nat)
    requires 1 <= page
    ensures (page - 1) * pageSize >= 0 && page * pageSize == (page - 1) * pageSize + pageSize
    ensures BeforeLast(n, page * pageSize) <= BeforeLast(n, (page - 1) * pageSize) <= n
  {
    assert page * pageSize == (page - 1) * pageSize + pageSize;
  }

  function PageCount(n: nat, pageSize: nat): nat
    requires 0 < pageSize
  {
    (n + pageSize - 1) / pageSize
  }

  /** A range of one session, and what it contributes, newest first. */
  datatype Span = Span(id: string, until: string, count: nat)

  ghost predicate Counted(store: Store, span: Span) {
    && UpTo(Own(store, span.id), span.until).Some?
    && span.count == |Conversation(UpTo(Own(store, span.id), span.until).value)|
  }

  ghost predicate AllCounted(store: Store, spans: seq<Span>) {
    forall k :: 0 <= k < |spans| ==> Counted(store, spans[k])
  }

  /** The conversation among some messages, newest first. */
  function Backward(messages: seq<Message>): seq<Message> { NewestFirst(Conversation(messages)) }

  function Newest(store: Store, span: Span): seq<Message> {
    match UpTo(Own(store, span.id), span.until)
    case None => []
    case Some(own) => Backward(own)
  }

  /** The spans' conversations, newest first. */
  function Spans(store: Store, spans: seq<Span>): seq<Message> {
    if spans == [] then [] else Newest(store, spans[0]) + Spans(store, spans[1..])
  }

  lemma {:induction false} SpansSnoc(store: Store, spans: seq<Span>, span: Span)
    ensures Spans(store, spans + [span]) == Spans(store, spans) + Newest(store, span)
  {
    if spans == [] {
      OneSpan(store, span);
      assert spans + [span] == [span];
    } else {
      SpansSnoc(store, spans[1..], span);
      assert (spans + [span])[1..] == spans[1..] + [span];
      Associate(Newest(store, spans[0]), Spans(store, spans[1..]), Newest(store, span));
    }
  }

  lemma OneSpan(store: Store, span: Span)
    ensures Spans(store, [span]) == Newest(store, span)
  {
    assert Spans(store, [span]) == Newest(store, span) + Spans(store, []);
  }

  lemma Associate(a: seq<Message>, b: seq<Message>, c: seq<Message>)
    ensures a + (b + c) == (a + b) + c
  {
  }

  lemma {:induction false} NewestFirstConcat(a: seq<Message>, b: seq<Message>)
    ensures NewestFirst(a + b) == NewestFirst(b) + NewestFirst(a)
  {
    if a == [] {
      assert a + b == b;
    } else {
      NewestFirstConcat(a[1..], b);
      assert (a + b)[1..] == a[1..] + b;
    }
  }

  lemma {:induction false} ConversationConcat(a: seq<Message>, b: seq<Message>)
    ensures Conversation(a + b) == Conversation(a) + Conversation(b)
  {
    if a == [] {
      assert a + b == b;
    } else {
      ConversationConcat(a[1..], b);
      assert (a + b)[1..] == a[1..] + b;
      Associate(if a[0].conversation then [a[0]] else [], Conversation(a[1..]), Conversation(b));
    }
  }

  lemma NewestAppend(older: seq<Message>, own: seq<Message>)
    ensures Backward(older + own) == Backward(own) + Backward(older)
  {
    ConversationConcat(older, own);
    NewestFirstConcat(Conversation(older), Conversation(own));
  }

  lemma {:induction false} NewestFirstAt(s: seq<Message>, k: nat)
    requires k < |s|
    ensures NewestFirst(s)[k] == s[|s| - 1 - k]
  {
    if k < |s| - 1 { NewestFirstAt(s[1..], k); }
  }

  lemma WindowSkips(out: seq<Message>, a: seq<Message>, b: seq<Message>, offset: nat, limit: nat)
    requires offset >= |a|
    ensures out + Window(a + b, offset, limit) == out + Window(b, offset - |a|, limit)
  {
  }

  lemma WindowTakes(out: seq<Message>, a: seq<Message>, b: seq<Message>, offset: nat, limit: nat)
    requires offset < |a|
    ensures var w := Window(a, offset, limit);
            |w| <= limit && out + Window(a + b, offset, limit) == (out + w) + Window(b, 0, limit - |w|)
  {
    Associate(out, Window(a, offset, limit), Window(b, 0, limit - |Window(a, offset, limit)|));
  }

  /** What the history is, as far as the walk up has come: what is above, then what the
      spans found so far contribute. */
  ghost predicate Found(store: Store, whole: Result<seq<Message>, LoadError>, rest: Result<seq<Message>, LoadError>,
                        spans: seq<Span>)
  {
    match rest
    case Err(error) => whole == Err(error)
    case Ok(older) => whole.Ok? && Backward(whole.value) == Spans(store, spans) + Backward(older)
  }

  /** The history above a session, up to where it was forked off. */
  function Above(store: Store, id: string, depth: nat): Result<seq<Message>, LoadError>
    requires id in store.sessions && depth <= MAX_FORK_DEPTH
  {
    var s := store.sessions[id];
    if s.parent == "" || s.forkFrom == "" then Ok([]) else History(store, s.parent, s.forkFrom, depth + 1)
  }

  lemma FoundOwn(store: Store, whole: Result<seq<Message>, LoadError>, spans: seq<Span>, id: string, until: string,
                 depth: nat, count: nat)
    requires id in store.sessions && depth <= MAX_FORK_DEPTH && UpTo(Own(store, id), until).Some?
    requires Found(store, whole, History(store, id, until, depth), spans)
    ensures Found(store, whole, Above(store, id, depth), spans + [Span(id, until, count)])
  {
    var above, own := Above(store, id, depth), UpTo(Own(store, id), until).value;
    if above.Ok? {
      assert [] + own == own;
      NewestAppend(above.value, own);
      SpansSnoc(store, spans, Span(id, until, count));
      Associate(Spans(store, spans), Backward(own), Backward(above.value));
    }
  }

  /** What is left of the history when the walk up has come to session `id`. */
  function Remaining(store: Store, id: string, until: string, depth: nat, inherited: bool)
    : Result<seq<Message>, LoadError>
  {
    if id != "" then History(store, id, until, depth)
    else if inherited then Err(CheckpointNotFound(until)) else Ok([])
  }

  function Whole(store: Store, sessionID: string): Result<seq<Message>, LoadError> {
    Remaining(store, sessionID, "", 0, false)
  }

  lemma FoundStart(store: Store, sessionID: string)
    ensures Found(store, Whole(store, sessionID), Whole(store, sessionID), [])
  {
  }

  lemma CountMore(store: Store, spans: seq<Span>, span: Span)
    requires AllCounted(store, spans) && Counted(store, span)
    ensures AllCounted(store, spans + [span]) && |Spans(store, spans + [span])| == |Spans(store, spans)| + span.count
  {
    SpansSnoc(store, spans, span);
  }

  /** The ranges to page through, newest first. */
  method FindSpans(store: Store, sessionID: string) returns (r: Result<(seq<Span>, nat), LoadError>)
    ensures r.Err? ==> Whole(store, sessionID) == Err(r.error)
    ensures r.Ok? ==> AllCounted(store, r.value.0) && r.value.1 == |Spans(store, r.value.0)|
    ensures r.Ok? ==> Whole(store, sessionID).Ok? && Backward(Whole(store, sessionID).value) == Spans(store, r.value.0)
  {
    var spans: seq<Span> := [];
    var id, until, inherited := sessionID, "", false;
    var total: nat, depth: nat := 0, 0;
    ghost var whole := Whole(store, sessionID);
    FoundStart(store, sessionID);
    while id != ""
      invariant depth <= MAX_FORK_DEPTH + 1
      invariant AllCounted(store, spans) && total == |Spans(store, spans)|
      invariant Found(store, whole, Remaining(store, id, until, depth, inherited), spans)
      decreases MAX_FORK_DEPTH + 1 - depth
    {
      if depth > MAX_FORK_DEPTH { return Err(ForkTooDeep); }
      if id !in store.sessions { return Err(SessionNotFound(id)); }
      var row := store.sessions[id];
      var own := UpTo(Own(store, id), until);
      if own.None? {
        inherited := true;
        id := row.parent;
      } else {
        inherited := false;
        var span := Span(id, until, |Conversation(own.value)|);
        FoundOwn(store, whole, spans, id, until, depth, span.count);
        CountMore(store, spans, span);
        spans := spans + [span];
        total := total + span.count;
        id, until := row.parent, row.forkFrom;
        if until == "" { id := ""; }
      }
      depth := depth + 1;
    }
    if inherited { return Err(CheckpointNotFound(until)); }
    r := Ok((spans, total));
  }

  /** ListConversationMessages. */
  function List(store: Store, span: Span, limit: nat, offset: nat): seq<Message> {
    Window(Newest(store, span), offset, limit)
  }

  /** What is still to come once `out` has been collected. */
  function Coming(store: Store, spans: seq<Span>, k: nat, offset: nat, pageSize: nat, out: seq<Message>): seq<Message>
    requires k <= |spans| && |out| <= pageSize
  {
    out + Window(Spans(store, spans[k..]), offset, pageSize - |out|)
  }

  lemma SkipSpan(store: Store, spans: seq<Span>, k: nat, offset: nat, pageSize: nat, out: seq<Message>)
    requires k < |spans| && |out| <= pageSize && offset >= |Newest(store, spans[k])|
    ensures Coming(store, spans, k, offset, pageSize, out)
            == Coming(store, spans, k + 1, offset - |Newest(store, spans[k])|, pageSize, out)
  {
    assert spans[k..][1..] == spans[k + 1..];
    WindowSkips(out, Newest(store, spans[k]), Spans(store, spans[k + 1..]), offset, pageSize - |out|);
  }

  lemma TakeSpan(store: Store, spans: seq<Span>, k: nat, offset: nat, pageSize: nat, out: seq<Message>)
    requires k < |spans| && |out| <= pageSize && offset < |Newest(store, spans[k])|
    ensures var more := out + List(store, spans[k], pageSize - |out|, offset);
            && |more| <= pageSize
            && Coming(store, spans, k, offset, pageSize, out) == Coming(store, spans, k + 1, 0, pageSize, more)
  {
    assert spans[k..][1..] == spans[k + 1..];
    WindowTakes(out, Newest(store, spans[k]), Spans(store, spans[k + 1..]), offset, pageSize - |out|);
  }

  lemma NothingComing(store: Store, spans: seq<Span>, k: nat, offset: nat, pageSize: nat, out: seq<Message>)
    requires k <= |spans| && |out| <= pageSize && (k == |spans| || |out| == pageSize)
    ensures Coming(store, spans, k, offset, pageSize, out) == out
  {
    if k == |spans| { assert spans[k..] == []; }
  }

  lemma AllComing(store: Store, spans: seq<Span>, first: nat, pageSize: nat)
    ensures Coming(store, spans, 0, first, pageSize, []) == Window(Spans(store, spans), first, pageSize)
  {
    assert spans[0..] == spans;
  }

  lemma CountedIs(store: Store, spans: seq<Span>, k: nat)
    requires AllCounted(store, spans) && k < |spans|
    ensures spans[k].count == |Newest(store, spans[k])|
  {
    assert Counted(store, spans[k]);
  }

  method Collect(store: Store, spans: seq<Span>, first: nat, pageSize: nat) returns (out: seq<Message>)
    requires 0 < pageSize && AllCounted(store, spans)
    ensures out == Window(Spans(store, spans), first, pageSize)
  {
    out := [];
    var offset: nat := first;
    ghost var whole := Window(Spans(store, spans), first, pageSize);
    AllComing(store, spans, first, pageSize);
    for k := 0 to |spans|
      invariant |out| < pageSize
      invariant Coming(store, spans, k, offset, pageSize, out) == whole
    {
      CountedIs(store, spans, k);
      if offset >= spans[k].count {
        SkipSpan(store, spans, k, offset, pageSize, out);
        offset := offset - spans[k].count;
      } else {
        TakeSpan(store, spans, k, offset, pageSize, out);
        out := out + List(store, spans[k], pageSize - |out|, offset);
        offset := 0;
        if |out| == pageSize {
          NothingComing(store, spans, k + 1, offset, pageSize, out);
          return;
        }
      }
    }
    NothingComing(store, spans, |spans|, offset, pageSize, out);
  }

  method ReverseInPlace(rows: array<Message>)
    modifies rows
    ensures rows[..] == NewestFirst(old(rows[..]))
  {
    ghost var was := rows[..];
    var i, j := 0, rows.Length - 1;
    while i < j
      invariant 0 <= i <= j + 1 && i + j == rows.Length - 1
      invariant forall k :: 0 <= k < rows.Length ==> rows[k] == was[if i <= k <= j then k else rows.Length - 1 - k]
    {
      rows[i], rows[j] := rows[j], rows[i];
      i, j := i + 1, j - 1;
    }
    forall k | 0 <= k < rows.Length ensures rows[..][k] == NewestFirst(was)[k] { NewestFirstAt(was, k); }
  }

  method InOrder(out: seq<Message>) returns (page: seq<Message>)
    ensures page == NewestFirst(out)
  {
    var rows := new Message[|out|](k requires 0 <= k < |out| => out[k]);
    assert rows[..] == out;
    ReverseInPlace(rows);
    page := rows[..];
  }

  method PageFrom(store: Store, spans: seq<Span>, total: nat, ghost conversation: seq<Message>, page: nat,
                  pageSize: nat) returns (r: MessagePage)
    requires 1 <= page && 1 <= pageSize && AllCounted(store, spans)
    requires NewestFirst(conversation) == Spans(store, spans) && total == |conversation|
    ensures r == MessagePage(PageOf(conversation, page, pageSize), PageCount(|conversation|, pageSize))
  {
    var totalPages := (total + pageSize - 1) / pageSize;
    if page > (if totalPages > 1 then totalPages else 1) {
      PastTheEnd(conversation, page, pageSize);
      return MessagePage([], totalPages);
    }
    WindowIsPage(conversation, page, pageSize);
    var out := Collect(store, spans, (page - 1) * pageSize, pageSize);
    var rows := InOrder(out);
    r := MessagePage(rows, totalPages);
  }

  method LoadMessagePage(store: Store, sessionID: string, page: nat, pageSize: nat)
    returns (r: Result<MessagePage, LoadError>)
    requires 1 <= page && 1 <= pageSize
    ensures match Whole(store, sessionID)
            case Err(error) => r == Err(error)
            case Ok(all) =>
              var talk := Conversation(all);
              r == Ok(MessagePage(PageOf(talk, page, pageSize), PageCount(|talk|, pageSize)))
  {
    var found := FindSpans(store, sessionID);
    if found.Err? { return Err(found.error); }
    ghost var all := Whole(store, sessionID).value;
    var out := PageFrom(store, found.value.0, found.value.1, Conversation(all), page, pageSize);
    r := Ok(out);
  }

  // ---- pages and the whole -----------------------------------------------------------------------

  lemma PastTheEnd(s: seq<Message>, page: nat, pageSize: nat)
    requires 1 <= pageSize && page > PageCount(|s|, pageSize) && page > 1
    ensures PageOf(s, page, pageSize) == []
  {
    PageBounds(|s|, page, pageSize);
    EnoughPages(|s|, page - 1, pageSize);
  }

  lemma EnoughPages(n: nat, pages: nat, pageSize: nat)
    requires 1 <= pageSize && pages >= PageCount(n, pageSize)
    ensures pages * pageSize >= n
  {
    var q := PageCount(n, pageSize);
    assert q * pageSize + (n + pageSize - 1) % pageSize == n + pageSize - 1;
    assert pages * pageSize == q * pageSize + (pages - q) * pageSize;
  }

  lemma WindowIsPage(s: seq<Message>, page: nat, pageSize: nat)
    requires 1 <= page
    ensures (page - 1) * pageSize >= 0
    ensures NewestFirst(Window(NewestFirst(s), (page - 1) * pageSize, pageSize)) == PageOf(s, page, pageSize)
  {
    PageBounds(|s|, page, pageSize);
    WindowReversed(s, (page - 1) * pageSize, pageSize);
  }

  lemma CutInThree(s: seq<Message>, lo: nat, hi: nat)
    requires lo <= hi <= |s|
    ensures s == s[..lo] + (s[lo..hi] + s[hi..])
  {
  }

  lemma WindowReversed(s: seq<Message>, offset: nat, limit: nat)
    ensures BeforeLast(|s|, offset + limit) <= BeforeLast(|s|, offset) <= |s|
    ensures NewestFirst(Window(NewestFirst(s), offset, limit))
            == s[BeforeLast(|s|, offset + limit)..BeforeLast(|s|, offset)]
  {
    var lo, hi := BeforeLast(|s|, offset + limit), BeforeLast(|s|, offset);
    if offset < |s| {
      CutInThree(s, lo, hi);
      WindowOfParts(s[..lo], s[lo..hi], s[hi..], offset, limit);
    } else {
      assert Window(NewestFirst(s), offset, limit) == [];
    }
  }

  lemma WindowOfParts(a: seq<Message>, b: seq<Message>, c: seq<Message>, offset: nat, limit: nat)
    requires offset == |c| && |b| <= limit && (|b| == limit || a == [])
    ensures NewestFirst(Window(NewestFirst(a + (b + c)), offset, limit)) == b
  {
    NewestFirstConcat(a, b + c);
    NewestFirstConcat(b, c);
    WindowMiddle(NewestFirst(c), NewestFirst(b), NewestFirst(a), offset, limit);
    NewestFirstTwice(b);
  }

  lemma WindowMiddle(a: seq<Message>, b: seq<Message>, c: seq<Message>, offset: nat, limit: nat)
    requires offset == |a| && |b| <= limit && (|b| == limit || c == [])
    ensures Window((a + b) + c, offset, limit) == b
  {
  }

  lemma {:induction false} NewestFirstTwice(s: seq<Message>)
    ensures NewestFirst(NewestFirst(s)) == s
  {
    if s != [] {
      NewestFirstTwice(s[1..]);
      NewestFirstConcat(NewestFirst(s[1..]), [s[0]]);
      assert NewestFirst([s[0]]) == [s[0]];
    }
  }

  /** Pages `page`, `page - 1`, ..., 1, one after the other. */
  function Pages(s: seq<Message>, page: nat, pageSize: nat): seq<Message> {
    if page == 0 then [] else PageOf(s, page, pageSize) + Pages(s, page - 1, pageSize)
  }

  lemma {:induction false} PagesAreTail(s: seq<Message>, page: nat, pageSize: nat)
    ensures Pages(s, page, pageSize) == s[BeforeLast(|s|, page * pageSize)..]
  {
    if page > 0 {
      PageBounds(|s|, page, pageSize);
      PagesAreTail(s, page - 1, pageSize);
    } else {
      assert 0 * pageSize == 0;
    }
  }

  /** All pages together, the last first, are the whole conversation, in order, every message
      once; and there are no more pages than needed. */
  lemma PagesAreWhole(s: seq<Message>, pageSize: nat)
    requires 1 <= pageSize
    ensures Pages(s, PageCount(|s|, pageSize), pageSize) == s
    ensures forall p :: 1 <= p <= PageCount(|s|, pageSize) ==> 1 <= |PageOf(s, p, pageSize)| <= pageSize
    ensures forall p :: 1 <= p < PageCount(|s|, pageSize) ==> |PageOf(s, p, pageSize)| == pageSize
  {
    var q := PageCount(|s|, pageSize);
    EnoughPages(|s|, q, pageSize);
    PagesAreTail(s, q, pageSize);
    forall p | 1 <= p <= q
      ensures 1 <= |PageOf(s, p, pageSize)| <= pageSize && (p < q ==> |PageOf(s, p, pageSize)| == pageSize)
    {
      PageBounds(|s|, p, pageSize);
      PageFits(|s|, p, pageSize);
    }
  }

  lemma AtLeast(k: nat, m: nat)
    requires 1 <= k
    ensures k * m >= m
  {
    assert k * m == (k - 1) * m + m;
  }

  lemma PageFits(n: nat, page: nat, pageSize: nat)
    requires 1 <= pageSize && 1 <= page <= PageCount(n, pageSize)
    ensures (page - 1) * pageSize < n && (page < PageCount(n, pageSize) ==> page * pageSize < n)
  {
    var q := PageCount(n, pageSize);
    assert q * pageSize + (n + pageSize - 1) % pageSize == n + pageSize - 1;
    assert q * pageSize == (page - 1) * pageSize + (q - page + 1) * pageSize;
    AtLeast(q - page + 1, pageSize);
    if page < q {
      assert q * pageSize == page * pageSize + (q - page) * pageSize;
      AtLeast(q - page, pageSize);
    }
  }

  /** The places of the conversation messages among the first `n`. */
  function Places(messages: seq<Message>, n: nat): (r: seq<nat>)
    requires n <= |messages|
    ensures forall k :: 0 <= k < |r| ==> r[k] < n && messages[r[k]].conversation
    ensures forall j, k :: 0 <= j < k < |r| ==> r[j] < r[k]
  {
    if n == 0 then [] else Places(messages, n - 1) + (if messages[n - 1].conversation then [n - 1] else [])
  }

  lemma {:induction false} InPlaces(messages: seq<Message>, n: nat, i: nat)
    requires i < n <= |messages| && messages[i].conversation
    ensures i in Places(messages, n)
  {
    if i < n - 1 { InPlaces(messages, n - 1, i); }
  }

  /** The messages at the given places. */
  function Picked(messages: seq<Message>, places: seq<nat>): seq<Message>
    requires forall k :: 0 <= k < |places| ==> places[k] < |messages|
  {
    seq(|places|, k requires 0 <= k < |places| => messages[places[k]])
  }

  /** The conversation is the messages at ascending places, a place being among them exactly
      when its message is a conversation message. */
  lemma {:induction false} ConversationPlaces(messages: seq<Message>, n: nat)
    requires n <= |messages|
    ensures Conversation(messages[..n]) == Picked(messages, Places(messages, n))
  {
    if n > 0 {
      ConversationPlaces(messages, n - 1);
      var last := messages[n - 1];
      assert messages[..n] == messages[..n - 1] + [last];
      ConversationConcat(messages[..n - 1], [last]);
      assert Conversation([last]) == if last.conversation then [last] else [];
    }
  }

  lemma InConversation(messages: seq<Message>, m: Message)
    ensures m in Conversation(messages) <==> m in messages && m.conversation
  {
    var places := Places(messages, |messages|);
    ConversationPlaces(messages, |messages|);
    assert messages[..|messages|] == messages;
    if m in messages && m.conversation {
      var i :| 0 <= i < |messages| && messages[i] == m;
      InPlaces(messages, |messages|, i);
      var k :| 0 <= k < |places| && places[k] == i;
      assert Picked(messages, places)[k] == m;
    }
  }

  lemma {:induction false} OnPages(s: seq<Message>, n: nat, pageSize: nat, m: Message)
    ensures m in Pages(s, n, pageSize) <==> exists p :: 1 <= p <= n && m in PageOf(s, p, pageSize)
  {
    if n > 0 {
      OnPages(s, n - 1, pageSize, m);
      if m in PageOf(s, n, pageSize) { assert 1 <= n <= n; }
    }
  }

  /** A message is on some page exactly when it is in the history and is a conversation message. */
  lemma PagesHoldConversation(all: seq<Message>, pageSize: nat, m: Message)
    requires 1 <= pageSize
    ensures var talk := Conversation(all);
            (exists p :: 1 <= p <= PageCount(|talk|, pageSize) && m in PageOf(talk, p, pageSize))
            <==> m in all && m.conversation
  {
    var talk := Conversation(all);
    OnPages(talk, PageCount(|talk|, pageSize), pageSize, m);
    PagesAreWhole(talk, pageSize);
    InConversation(all, m);
  }

  /** Paging through a history that loads raw gives back its conversation. */
  lemma PagesOfRaw(store: Store, id: string, pageSize: nat)
    requires 1 <= pageSize && LoadRaw(store, id, "", 0).Ok?
    ensures var all := Conversation(LoadRaw(store, id, "", 0).value);
            && History(store, id, "", 0) == LoadRaw(store, id, "", 0)
            && Pages(all, PageCount(|all|, pageSize), pageSize) == all
  {
    RawHistory(store, id, "", 0);
    PagesAreWhole(Conversation(LoadRaw(store, id, "", 0).value), pageSize);
  }
}
