/** A batch of resolved edits: pairwise validation, the sort, and splicing from back to
    front, which amounts to one left-to-right substitution in the original text. */
module EditBatch {

  /** An edit as a range of the original text and what replaces it; an empty range is an
      insertion. `order` is its place in the batch. */
  datatype Resolved = Resolved(start: nat, end: nat, text: string, order: nat)

  predicate Insertion(e: Resolved) { e.start == e.end }

  /** The three cases that validation refuses. */
  predicate Conflict(a: Resolved, b: Resolved) {
    || (!Insertion(a) && !Insertion(b) && a.start < b.end && b.start < a.end)
    || (Insertion(a) && !Insertion(b) && a.start > b.start && a.start < b.end)
    || (Insertion(b) && !Insertion(a) && b.start > a.start && b.start < a.end)
  }

  ghost predicate Compatible(edits: seq<Resolved>) {
    forall i, j :: 0 <= i < j < |edits| ==> !Conflict(edits[i], edits[j])
  }

  /** Ranges of the text, numbered in batch order. */
  ghost predicate InText(text: string, edits: seq<Resolved>) {
    forall i :: 0 <= i < |edits| ==> edits[i].start <= edits[i].end <= |text| && edits[i].order == i
  }

  // ---- the meaning of a batch -------------------------------------------------------

  /** What the insertions of `part` at `p`, among the first `n` edits, insert, in batch order. */
  function Inserted(edits: seq<Resolved>, part: set<nat>, p: nat, n: nat): string
    requires n <= |edits|
  {
    if n == 0 then ""
    else
      var here := if n - 1 in part && edits[n - 1].start == p && edits[n - 1].end == p then edits[n - 1].text else "";
      Inserted(edits, part, p, n - 1) + here
  }

  datatype Choice = Keep | Replace(edit: nat)

  /** The edit of `part`, among the first `n`, that replaces text from `p` on. */
  function Replacing(edits: seq<Resolved>, part: set<nat>, p: nat, n: nat): (c: Choice)
    requires n <= |edits|
    ensures c.Replace? ==> c.edit < n && c.edit in part && edits[c.edit].start == p < edits[c.edit].end
    ensures c.Keep? ==> forall i :: 0 <= i < n && i in part && edits[i].start == p ==> edits[i].end <= p
  {
    if n == 0 then Keep
    else if n - 1 in part && edits[n - 1].start == p < edits[n - 1].end then Replace(n - 1)
    else Replacing(edits, part, p, n - 1)
  }

  /** One pass over the original text from `p` on: at each offset first everything that
      is inserted there, then either a replacement, skipping what it replaces, or the
      original character. */
  function Pass(text: string, edits: seq<Resolved>, part: set<nat>, p: nat): string
    requires p <= |text| && InText(text, edits)
    decreases |text| - p
  {
    Inserted(edits, part, p, |edits|) +
    if p == |text| then ""
    else match Replacing(edits, part, p, |edits|)
         case Replace(i) => edits[i].text + Pass(text, edits, part, edits[i].end)
         case Keep => [text[p]] + Pass(text, edits, part, p + 1)
  }

  function Orders(n: nat): (s: set<nat>)
    ensures forall i :: i in s <==> 0 <= i < n
  {
    if n == 0 then {} else Orders(n - 1) + {n - 1}
  }

  /** The whole batch, substituted simultaneously. */
  function Substitute(text: string, edits: seq<Resolved>): string
    requires InText(text, edits)
  {
    Pass(text, edits, Orders(|edits|), 0)
  }

  // ---- the code --------------------------------------------------------------------------

  datatype Verdict = Valid | Overlap(first: nat, second: nat)

  /** The double loop of validateResolvedEdits. */
  method Validate(edits: seq<Resolved>) returns (v: Verdict)
    ensures v.Valid? <==> Compatible(edits)
    ensures v.Overlap? ==> v.first < v.second < |edits| && Conflict(edits[v.first], edits[v.second])
  {
    for i := 0 to |edits|
      invariant forall a, b :: 0 <= a < i && a < b < |edits| ==> !Conflict(edits[a], edits[b])
    {
      for j := i + 1 to |edits|
        invariant forall b :: i < b < j ==> !Conflict(edits[i], edits[b])
      {
        if Conflict(edits[i], edits[j]) { return Overlap(i, j); }
      }
    }
    v := Valid;
  }

  /** The order of the sort: later starts first; at one start replacements first, then
      insertions from the last of the batch to the first. */
  predicate Before(a: Resolved, b: Resolved) {
    if a.start != b.start then a.start > b.start
    else if Insertion(a) != Insertion(b) then !Insertion(a)
    else a.order > b.order
  }

  ghost predicate Sorted(s: seq<Resolved>) {
    forall i, j :: 0 <= i < j < |s| ==> Before(s[i], s[j])
  }

  ghost predicate DistinctOrders(s: seq<Resolved>) {
    forall i, j :: 0 <= i < j < |s| ==> s[i].order != s[j].order
  }

  /** Where a new element goes in a sorted list. */
  method Place(s: seq<Resolved>, e: Resolved) returns (k: nat)
    requires Sorted(s) && forall x :: 0 <= x < |s| ==> s[x].order != e.order
    ensures k <= |s| && Sorted(s[..k] + [e] + s[k..])
  {
    k := 0;
    while k < |s| && Before(s[k], e)
      invariant k <= |s| && forall x :: 0 <= x < k ==> Before(s[x], e)
    {
      k := k + 1;
    }
    forall x | k <= x < |s| ensures Before(e, s[x]) {
      if k < x { assert Before(s[k], s[x]); }
    }
  }

  /** The standard library's sort, as an insertion sort. */
  method Sort(edits: seq<Resolved>) returns (s: seq<Resolved>)
    requires DistinctOrders(edits)
    ensures Sorted(s) && multiset(s) == multiset(edits)
  {
    s := [];
    for i := 0 to |edits|
      invariant Sorted(s) && multiset(s) == multiset(edits[..i])
    {
      FreshOrder(edits, s, i);
      var k := Place(s, edits[i]);
      assert edits[..i + 1] == edits[..i] + [edits[i]];
      assert s == s[..k] + s[k..];
      s := s[..k] + [edits[i]] + s[k..];
    }
    assert edits[..|edits|] == edits;
  }

  lemma FreshOrder(edits: seq<Resolved>, s: seq<Resolved>, i: nat)
    requires DistinctOrders(edits) && i < |edits| && multiset(s) == multiset(edits[..i])
    ensures forall x :: 0 <= x < |s| ==> s[x].order != edits[i].order
  {
    forall x | 0 <= x < |s| ensures s[x].order != edits[i].order {
      assert s[x] in multiset(s);
      assert s[x] in edits[..i];
    }
  }

  method Splice(text: string, edits: seq<Resolved>, sorted: seq<Resolved>) returns (out: string)
    requires InText(text, edits) && Compatible(edits)
    requires Sorted(sorted) && multiset(sorted) == multiset(edits)
    ensures out == Substitute(text, edits)
  {
    hide Reached, Substitute, Compatible, Sorted, InText;
    out := text;
    Untouched(text, edits, sorted);
    for k := 0 to |sorted|
      invariant Reached(text, edits, sorted, k, out)
    {
      SpliceOne(text, edits, sorted, k, out);
      out := out[..sorted[k].start] + sorted[k].text + out[sorted[k].end..];
    }
    AllDone(text, edits, sorted, out);
  }

  // ---- splicing is substitution ---------------------------------------------------------

  /** The edits of `part` all start at or after `bound`, and `out` is the text with just
      those substituted. */
  ghost predicate Spliced(text: string, edits: seq<Resolved>, part: set<nat>, bound: nat, out: string)
    requires InText(text, edits)
  {
    && bound <= |text|
    && (forall i :: i in part ==> i < |edits| && bound <= edits[i].start)
    && out == text[..bound] + Pass(text, edits, part, bound)
  }

  /** The edits among the first `k` in sorted order. */
  function PartOf(sorted: seq<Resolved>, k: nat): (part: set<nat>)
    requires k <= |sorted|
    ensures forall i :: i in part <==> exists x :: 0 <= x < k && sorted[x].order == i
  {
    if k == 0 then {} else PartOf(sorted, k - 1) + {sorted[k - 1].order}
  }

  /** The state of the loop after `k` edits. */
  ghost predicate Reached(text: string, edits: seq<Resolved>, sorted: seq<Resolved>, k: nat, out: string)
    requires InText(text, edits) && k <= |sorted|
  {
    Spliced(text, edits, PartOf(sorted, k), if k == 0 then |text| else sorted[k - 1].start, out)
  }

  ghost predicate InsertsAt(edits: seq<Resolved>, i: nat, p: nat) {
    i < |edits| && edits[i].start == p && edits[i].end == p
  }

  lemma {:induction false} InsertedNone(edits: seq<Resolved>, part: set<nat>, p: nat, n: nat)
    requires n <= |edits| && forall i :: i in part && i < n ==> !InsertsAt(edits, i, p)
    ensures Inserted(edits, part, p, n) == ""
  {
    if n > 0 {
      InsertedNone(edits, part, p, n - 1);
      assert n - 1 in part ==> !InsertsAt(edits, n - 1, p);
    }
  }

  lemma {:induction false} InsertedOther(edits: seq<Resolved>, part: set<nat>, o: nat, p: nat, n: nat)
    requires n <= |edits| && !InsertsAt(edits, o, p)
    ensures Inserted(edits, part + {o}, p, n) == Inserted(edits, part, p, n)
  {
    if n > 0 { InsertedOther(edits, part, o, p, n - 1); }
  }

  /** An insertion that comes before all others at its offset goes in front of them. */
  lemma {:induction false} InsertedFirst(edits: seq<Resolved>, part: set<nat>, o: nat, p: nat, n: nat)
    requires n <= |edits| && InsertsAt(edits, o, p) && o !in part
    requires forall i :: i in part && InsertsAt(edits, i, p) ==> o < i
    ensures Inserted(edits, part + {o}, p, n) == (if o < n then edits[o].text else "") + Inserted(edits, part, p, n)
  {
    if n > 0 {
      hide Inserted;
      InsertedFirst(edits, part, o, p, n - 1);
      InsertedOne(edits, part + {o}, p, n);
      InsertedOne(edits, part, p, n);
      if n - 1 == o {
        NoneBefore(edits, part, o, p);
      } else if n - 1 in part && InsertsAt(edits, n - 1, p) {
        assert o < n - 1;
        InFront(edits[o].text, Inserted(edits, part, p, n - 1), edits[n - 1].text);
      }
    }
  }

  lemma NoneBefore(edits: seq<Resolved>, part: set<nat>, o: nat, p: nat)
    requires o < |edits| && forall i :: i in part && InsertsAt(edits, i, p) ==> o < i
    ensures Inserted(edits, part, p, o) == ""
  {
    InsertedNone(edits, part, p, o);
  }

  lemma InFront(a: string, b: string, c: string)
    ensures (a + b) + c == a + (b + c)
  {
  }

  lemma InsertedOne(edits: seq<Resolved>, part: set<nat>, p: nat, n: nat)
    requires 0 < n <= |edits|
    ensures Inserted(edits, part, p, n)
            == if n - 1 in part && InsertsAt(edits, n - 1, p) then Inserted(edits, part, p, n - 1) + edits[n - 1].text
               else Inserted(edits, part, p, n - 1)
  {
  }

  lemma {:induction false} ReplacingOther(edits: seq<Resolved>, part: set<nat>, o: nat, p: nat, n: nat)
    requires n <= |edits| && o < |edits| && !(edits[o].start == p < edits[o].end)
    ensures Replacing(edits, part + {o}, p, n) == Replacing(edits, part, p, n)
  {
    if n > 0 { ReplacingOther(edits, part, o, p, n - 1); }
  }

  /** An edit that starts before `p` does not affect the pass from `p` on. */
  lemma {:induction false} PassIgnores(text: string, edits: seq<Resolved>, part: set<nat>, o: nat, p: nat)
    requires p <= |text| && InText(text, edits) && o < |edits| && edits[o].start < p
    ensures Pass(text, edits, part + {o}, p) == Pass(text, edits, part, p)
    decreases |text| - p
  {
    InsertedOther(edits, part, o, p, |edits|);
    if p < |text| {
      ReplacingOther(edits, part, o, p, |edits|);
      match Replacing(edits, part, p, |edits|)
      case Replace(i) => PassIgnores(text, edits, part, o, edits[i].end);
      case Keep => PassIgnores(text, edits, part, o, p + 1);
    }
  }

  ghost predicate NoneIn(edits: seq<Resolved>, part: set<nat>, lo: nat, hi: nat) {
    forall i :: i in part && i < |edits| ==> !(lo <= edits[i].start < hi)
  }

  lemma PassCopiesOne(text: string, edits: seq<Resolved>, part: set<nat>, p: nat)
    requires p < |text| && InText(text, edits) && NoneIn(edits, part, p, p + 1)
    ensures Pass(text, edits, part, p) == [text[p]] + Pass(text, edits, part, p + 1)
  {
    InsertedNone(edits, part, p, |edits|);
    assert Replacing(edits, part, p, |edits|) == Keep;
  }

  /** Where no edit starts the pass copies. */
  lemma {:induction false} PassCopies(text: string, edits: seq<Resolved>, part: set<nat>, lo: nat, hi: nat)
    requires lo <= hi <= |text| && InText(text, edits) && NoneIn(edits, part, lo, hi)
    ensures Pass(text, edits, part, lo) == text[lo..hi] + Pass(text, edits, part, hi)
    decreases hi - lo
  {
    if lo < hi {
      PassCopiesOne(text, edits, part, lo);
      PassCopies(text, edits, part, lo + 1, hi);
      CopyMore(text, lo, hi, Pass(text, edits, part, hi));
    }
  }

  lemma CopyMore(text: string, lo: nat, hi: nat, rest: string)
    requires lo < hi <= |text|
    ensures text[lo..hi] + rest == [text[lo]] + (text[lo + 1..hi] + rest)
  {
  }

  lemma NothingToDo(text: string, edits: seq<Resolved>, p: nat)
    requires p <= |text| && InText(text, edits)
    ensures text == text[..p] + Pass(text, edits, {}, p)
  {
    PassCopies(text, edits, {}, p, |text|);
    InsertedNone(edits, {}, |text|, |edits|);
    assert text == text[..p] + text[p..|text|];
  }

  lemma Untouched(text: string, edits: seq<Resolved>, sorted: seq<Resolved>)
    requires InText(text, edits)
    ensures Reached(text, edits, sorted, 0, text)
  {
    NothingToDo(text, edits, |text|);
  }

  /** Moving the bound down over untouched text. */
  lemma SplicedDown(text: string, edits: seq<Resolved>, part: set<nat>, bound: nat, out: string, p: nat)
    requires InText(text, edits) && Spliced(text, edits, part, bound, out) && p <= bound
    ensures out == text[..p] + Pass(text, edits, part, p)
  {
    PassCopies(text, edits, part, p, bound);
    assert text[..bound] == text[..p] + text[p..bound];
  }

  /** The pass at `p` once what is inserted there has been copied. */
  function PassOn(text: string, edits: seq<Resolved>, part: set<nat>, p: nat): string
    requires p <= |text| && InText(text, edits)
  {
    if p == |text| then ""
    else match Replacing(edits, part, p, |edits|)
         case Replace(i) => edits[i].text + Pass(text, edits, part, edits[i].end)
         case Keep => [text[p]] + Pass(text, edits, part, p + 1)
  }

  lemma PassParts(text: string, edits: seq<Resolved>, part: set<nat>, p: nat)
    requires p <= |text| && InText(text, edits)
    ensures Pass(text, edits, part, p) == Inserted(edits, part, p, |edits|) + PassOn(text, edits, part, p)
  {
  }

  lemma PassOnIgnores(text: string, edits: seq<Resolved>, part: set<nat>, o: nat)
    requires InText(text, edits) && o < |edits| && Insertion(edits[o])
    ensures PassOn(text, edits, part + {o}, edits[o].start) == PassOn(text, edits, part, edits[o].start)
  {
    hide Pass;
    var p := edits[o].start;
    if p < |text| {
      ReplacingOther(edits, part, o, p, |edits|);
      match Replacing(edits, part, p, |edits|)
      case Replace(i) => PassIgnores(text, edits, part, o, edits[i].end);
      case Keep => PassIgnores(text, edits, part, o, p + 1);
    }
  }

  lemma Regrouped(a: string, b: string, c: string)
    ensures (a + b) + c == a + (b + c)
  {
  }

  lemma PassInserts(text: string, edits: seq<Resolved>, part: set<nat>, o: nat)
    requires InText(text, edits) && o < |edits| && o !in part && Insertion(edits[o])
    requires forall i :: i in part && InsertsAt(edits, i, edits[o].start) ==> o < i
    ensures Pass(text, edits, part + {o}, edits[o].start) == edits[o].text + Pass(text, edits, part, edits[o].start)
  {
    hide Pass, PassOn, Inserted;
    var p := edits[o].start;
    InsertedFirst(edits, part, o, p, |edits|);
    PassOnIgnores(text, edits, part, o);
    PassParts(text, edits, part + {o}, p);
    PassParts(text, edits, part, p);
    Regrouped(edits[o].text, Inserted(edits, part, p, |edits|), PassOn(text, edits, part, p));
  }

  lemma InsertionStep(text: string, edits: seq<Resolved>, part: set<nat>, bound: nat, out: string, o: nat)
    requires InText(text, edits) && Spliced(text, edits, part, bound, out) && o < |edits| && o !in part
    requires Insertion(edits[o]) && edits[o].start <= bound
    requires forall i :: i in part && InsertsAt(edits, i, edits[o].start) ==> o < i
    ensures var e := edits[o];
            && e.start <= e.end <= |out|
            && Spliced(text, edits, part + {o}, e.start, out[..e.start] + e.text + out[e.end..])
  {
    var p := edits[o].start;
    SplicedDown(text, edits, part, bound, out, p);
    assert out[..p] == text[..p] && out[p..] == Pass(text, edits, part, p);
    PassInserts(text, edits, part, o);
  }

  lemma ReplacementStep(text: string, edits: seq<Resolved>, part: set<nat>, bound: nat, out: string, o: nat)
    requires InText(text, edits) && Spliced(text, edits, part, bound, out) && o < |edits| && o !in part
    requires !Insertion(edits[o]) && edits[o].end <= bound
    ensures var e := edits[o];
            && e.start <= e.end <= |out|
            && Spliced(text, edits, part + {o}, e.start, out[..e.start] + e.text + out[e.end..])
  {
    var e, p := edits[o], edits[o].start;
    SplicedDown(text, edits, part, bound, out, e.end);
    assert out[..p] == text[..p] && out[e.end..] == Pass(text, edits, part, e.end);
    PassReplaces(text, edits, part, o);
  }

  lemma PassReplaces(text: string, edits: seq<Resolved>, part: set<nat>, o: nat)
    requires InText(text, edits) && o < |edits| && o !in part && !Insertion(edits[o])
    requires forall i :: i in part ==> i < |edits| && edits[o].end <= edits[i].start
    ensures edits[o].start <= edits[o].end <= |text|
    ensures Pass(text, edits, part + {o}, edits[o].start) == edits[o].text + Pass(text, edits, part, edits[o].end)
  {
    var p := edits[o].start;
    InsertedNone(edits, part + {o}, p, |edits|);
    OnlyReplacement(edits, part + {o}, o, p);
    PassIgnores(text, edits, part, o, edits[o].end);
  }

  lemma OnlyReplacement(edits: seq<Resolved>, part: set<nat>, o: nat, p: nat)
    requires o < |edits| && o in part && edits[o].start == p < edits[o].end
    requires forall i :: i in part && i < |edits| && i != o ==> edits[i].start != p
    ensures Replacing(edits, part, p, |edits|) == Replace(o)
  {
  }

  // ---- what the sort gives the loop --------------------------------------------------------

  /** The k-th edit in sorted order is compatible with, and follows, those already spliced. */
  lemma SortedAt(text: string, edits: seq<Resolved>, sorted: seq<Resolved>, k: nat)
    requires InText(text, edits) && multiset(sorted) == multiset(edits) && k < |sorted|
    ensures sorted[k].order < |edits| && edits[sorted[k].order] == sorted[k]
  {
    assert sorted[k] in multiset(sorted);
    assert sorted[k] in edits;
  }

  lemma FollowsPart(text: string, edits: seq<Resolved>, sorted: seq<Resolved>, k: nat)
    requires InText(text, edits) && Sorted(sorted) && multiset(sorted) == multiset(edits) && k < |sorted|
    ensures forall i :: i in PartOf(sorted, k) ==> i < |edits| && i != sorted[k].order && Before(edits[i], sorted[k])
  {
    forall i | i in PartOf(sorted, k) ensures i < |edits| && i != sorted[k].order && Before(edits[i], sorted[k]) {
      var x :| 0 <= x < k && sorted[x].order == i;
      SortedAt(text, edits, sorted, x);
      SortedAt(text, edits, sorted, k);
      assert Before(sorted[x], sorted[k]);
    }
  }

  lemma SpliceOne(text: string, edits: seq<Resolved>, sorted: seq<Resolved>, k: nat, out: string)
    requires InText(text, edits) && Compatible(edits) && Sorted(sorted) && multiset(sorted) == multiset(edits)
    requires k < |sorted| && Reached(text, edits, sorted, k, out)
    ensures var e := sorted[k];
            e.start <= e.end <= |out| && Reached(text, edits, sorted, k + 1, out[..e.start] + e.text + out[e.end..])
  {
    var e := sorted[k];
    var part, bound := PartOf(sorted, k), if k == 0 then |text| else sorted[k - 1].start;
    SortedAt(text, edits, sorted, k);
    FollowsPart(text, edits, sorted, k);
    if k > 0 { assert Before(sorted[k - 1], sorted[k]); }
    if Insertion(e) {
      InsertionStep(text, edits, part, bound, out, e.order);
    } else {
      if k > 0 {
        SortedAt(text, edits, sorted, k - 1);
        AfterReplacement(edits, sorted[k - 1].order, e.order);
      }
      ReplacementStep(text, edits, part, bound, out, e.order);
    }
  }

  lemma AfterReplacement(edits: seq<Resolved>, i: nat, o: nat)
    requires Compatible(edits) && i < |edits| && o < |edits| && i != o
    requires edits[i].start <= edits[i].end && edits[o].start < edits[o].end && Before(edits[i], edits[o])
    ensures edits[o].end <= edits[i].start
  {
    assert !Conflict(edits[if i < o then i else o], edits[if i < o then o else i]);
  }

  lemma AllDone(text: string, edits: seq<Resolved>, sorted: seq<Resolved>, out: string)
    requires InText(text, edits) && multiset(sorted) == multiset(edits)
    requires Reached(text, edits, sorted, |sorted|, out)
    ensures out == Substitute(text, edits)
  {
    var part, n := PartOf(sorted, |sorted|), |sorted|;
    SplicedDown(text, edits, part, if n == 0 then |text| else sorted[n - 1].start, out, 0);
    forall i | 0 <= i < |edits| ensures i in part {
      assert edits[i] in multiset(edits);
      assert edits[i] in sorted;
    }
    assert part == Orders(|edits|);
  }
}
