/** replace_text with all_matches is the plain left-to-right replace-all. */
module EditReplaceAll {
  import opened Options
  import opened EditText
  import opened EditBatch
  import opened EditOps

  /** The edits that replacing every match resolves to. */
  function AllReplaced(text: string, needle: string, repl: string): seq<Resolved>
    requires needle != ""
  {
    Number(AtMatches(MatchesFrom(text, 0, needle), repl), 0)
  }

  /** Matches from `p` on are the matches of the whole text from number k on, and the
      earlier ones end by `p`. */
  ghost predicate AtMatch(text: string, needle: string, p: nat, k: nat)
    requires needle != ""
  {
    var all := MatchesFrom(text, 0, needle);
    && p <= |text| && k <= |all| && MatchesFrom(text, p, needle) == all[k..]
    && forall i :: 0 <= i < k ==> all[i].end <= p
  }

  lemma MatchHere(text: string, needle: string, p: nat, k: nat)
    requires needle != "" && AtMatch(text, needle, p, k) && StartsAt(text, p, needle) && p < |text|
    ensures k < |MatchesFrom(text, 0, needle)| && MatchesFrom(text, 0, needle)[k] == Match(p, p + |needle|)
    ensures AtMatch(text, needle, p + |needle|, k + 1)
  {
    var all := MatchesFrom(text, 0, needle);
    assert all[k..] == [Match(p, p + |needle|)] + MatchesFrom(text, p + |needle|, needle);
    assert all[k] == all[k..][0] && all[k + 1..] == all[k..][1..];
  }

  lemma NoMatchHere(text: string, needle: string, p: nat, k: nat)
    requires needle != "" && AtMatch(text, needle, p, k) && p < |text| && !StartsAt(text, p, needle)
    ensures AtMatch(text, needle, p + 1, k)
    ensures forall i :: 0 <= i < |MatchesFrom(text, 0, needle)| ==> MatchesFrom(text, 0, needle)[i].start != p
  {
    var all := MatchesFrom(text, 0, needle);
    MatchesInText(text, 0, needle);
    MatchesInText(text, p + 1, needle);
    forall i | 0 <= i < |all| ensures all[i].start != p {
      assert all[i] in all;
      if i >= k { assert all[i] == all[k..][i - k]; }
    }
  }

  lemma OnlyMatch(edits: seq<Resolved>, k: nat, n: nat)
    requires k < n <= |edits| && edits[k].start < edits[k].end
    requires forall i :: 0 <= i < n && i != k ==> edits[i].start != edits[k].start
    ensures Replacing(edits, Orders(|edits|), edits[k].start, n) == Choice.Replace(k)
  {
  }

  lemma NoInsertions(text: string, needle: string, repl: string, p: nat)
    requires needle != ""
    ensures var edits := AllReplaced(text, needle, repl); Inserted(edits, Orders(|edits|), p, |edits|) == ""
  {
    MatchesInText(text, 0, needle);
    var edits, all := AllReplaced(text, needle, repl), MatchesFrom(text, 0, needle);
    forall i | i in Orders(|edits|) && i < |edits| ensures !InsertsAt(edits, i, p) { assert all[i] in all; }
    InsertedNone(edits, Orders(|edits|), p, |edits|);
  }

  /** Matches ascend and do not overlap, so validation never refuses them. */
  lemma {:induction false} MatchesAscend(text: string, needle: string, offset: nat)
    requires needle != "" && offset <= |text|
    ensures Ascending(MatchesFrom(text, offset, needle))
    decreases |text| - offset
  {
    var i := IndexFrom(text, offset, needle);
    if i.Some? {
      var next := i.value + |needle|;
      MatchesAscend(text, needle, next);
      MatchesInText(text, next, needle);
      AscendingMore(Match(i.value, next), MatchesFrom(text, next, needle));
    }
  }

  ghost predicate Ascending(m: seq<Match>) {
    forall i, j :: 0 <= i < j < |m| ==> m[i].end <= m[j].start
  }

  lemma AscendingMore(first: Match, rest: seq<Match>)
    requires Ascending(rest) && forall m :: m in rest ==> first.end <= m.start
    ensures Ascending([first] + rest)
  {
    var m := [first] + rest;
    forall a, b | 0 <= a < b < |m| ensures m[a].end <= m[b].start {
      assert m[b] == rest[b - 1] && rest[b - 1] in rest;
      if a > 0 { assert m[a] == rest[a - 1]; }
    }
  }

  lemma AllReplacedValid(text: string, needle: string, repl: string)
    requires needle != ""
    ensures InText(text, AllReplaced(text, needle, repl)) && Compatible(AllReplaced(text, needle, repl))
  {
    MatchesInText(text, 0, needle);
    MatchesAscend(text, needle, 0);
    var edits, all := AllReplaced(text, needle, repl), MatchesFrom(text, 0, needle);
    forall i | 0 <= i < |edits|
      ensures edits[i].start <= edits[i].end <= |text| && edits[i].order == i
    {
      assert all[i] in all;
    }
    forall i, j | 0 <= i < j < |edits| ensures !Conflict(edits[i], edits[j]) {
      assert all[i] in all && all[j] in all;
      assert all[i].end <= all[j].start;
    }
  }

  /** The k-th match is the only edit that starts where it starts. */
  lemma OneEditAt(text: string, needle: string, repl: string, k: nat)
    requires needle != "" && k < |MatchesFrom(text, 0, needle)|
    ensures var edits := AllReplaced(text, needle, repl);
            forall i :: 0 <= i < |edits| && i != k ==> edits[i].start != edits[k].start
  {
    var edits, all := AllReplaced(text, needle, repl), MatchesFrom(text, 0, needle);
    MatchesAscend(text, needle, 0);
    MatchesInText(text, 0, needle);
    forall i | 0 <= i < |edits| && i != k ensures edits[i].start != edits[k].start {
      assert all[i] in all && all[k] in all;
      if i < k { assert all[i].end <= all[k].start; } else { assert all[k].end <= all[i].start; }
    }
  }

  lemma PassReplacesAt(text: string, edits: seq<Resolved>, k: nat)
    requires InText(text, edits) && k < |edits| && edits[k].start < edits[k].end
    requires forall i :: 0 <= i < |edits| && i != k ==> edits[i].start != edits[k].start
    ensures Pass(text, edits, Orders(|edits|), edits[k].start)
            == edits[k].text + Pass(text, edits, Orders(|edits|), edits[k].end)
  {
    InsertedNone(edits, Orders(|edits|), edits[k].start, |edits|);
    OnlyMatch(edits, k, |edits|);
  }

  lemma MatchStep(text: string, needle: string, repl: string, p: nat, k: nat)
    requires needle != "" && AtMatch(text, needle, p, k) && InText(text, AllReplaced(text, needle, repl))
    requires p < |text| && StartsAt(text, p, needle)
    ensures var edits := AllReplaced(text, needle, repl);
            Pass(text, edits, Orders(|edits|), p) == repl + Pass(text, edits, Orders(|edits|), p + |needle|)
  {
    hide Pass, AtMatch, InText, StartsAt, MatchesFrom;
    MatchHere(text, needle, p, k);
    OneEditAt(text, needle, repl, k);
    var edits := AllReplaced(text, needle, repl);
    assert edits[k] == Resolved(p, p + |needle|, repl, k);
    PassReplacesAt(text, edits, k);
  }

  lemma NoMatchStep(text: string, needle: string, repl: string, p: nat, k: nat)
    requires needle != "" && AtMatch(text, needle, p, k) && InText(text, AllReplaced(text, needle, repl))
    requires p < |text| && !StartsAt(text, p, needle)
    ensures var edits := AllReplaced(text, needle, repl);
            Pass(text, edits, Orders(|edits|), p) == [text[p]] + Pass(text, edits, Orders(|edits|), p + 1)
  {
    var edits, all := AllReplaced(text, needle, repl), MatchesFrom(text, 0, needle);
    NoMatchHere(text, needle, p, k);
    forall i | i in Orders(|edits|) && i < |edits| ensures edits[i].start != p { assert all[i].start != p; }
    assert NoneIn(edits, Orders(|edits|), p, p + 1);
    PassCopiesOne(text, edits, Orders(|edits|), p);
  }

  lemma ReplaceStep(text: string, needle: string, repl: string, p: nat)
    requires needle != "" && p < |text|
    ensures ReplaceAll(text[p..], needle, repl)
            == if StartsAt(text, p, needle) then repl + ReplaceAll(text[p + |needle|..], needle, repl)
               else [text[p]] + ReplaceAll(text[p + 1..], needle, repl)
  {
    assert text[p..][1..] == text[p + 1..];
    if p + |needle| <= |text| {
      assert text[p..][0..|needle|] == text[p..p + |needle|];
      assert text[p..][|needle|..] == text[p + |needle|..];
    }
  }

  ghost predicate ReplacedFrom(text: string, needle: string, repl: string, p: nat)
    requires needle != "" && p <= |text| && InText(text, AllReplaced(text, needle, repl))
  {
    var edits := AllReplaced(text, needle, repl);
    Pass(text, edits, Orders(|edits|), p) == ReplaceAll(text[p..], needle, repl)
  }

  lemma ReplacedEnd(text: string, needle: string, repl: string)
    requires needle != "" && InText(text, AllReplaced(text, needle, repl))
    ensures ReplacedFrom(text, needle, repl, |text|)
  {
    NoInsertions(text, needle, repl, |text|);
  }

  lemma ReplacedHere(text: string, needle: string, repl: string, p: nat, k: nat, p': nat)
    requires needle != "" && AtMatch(text, needle, p, k) && InText(text, AllReplaced(text, needle, repl))
    requires p < p' <= |text| && p' == (if StartsAt(text, p, needle) then p + |needle| else p + 1)
    requires ReplacedFrom(text, needle, repl, p')
    ensures ReplacedFrom(text, needle, repl, p)
  {
    ReplaceStep(text, needle, repl, p);
    if StartsAt(text, p, needle) {
      MatchStep(text, needle, repl, p, k);
    } else {
      NoMatchStep(text, needle, repl, p, k);
    }
  }

  lemma NextPlace(text: string, needle: string, p: nat, k: nat) returns (p': nat, k': nat)
    requires needle != "" && AtMatch(text, needle, p, k) && p < |text|
    ensures p < p' <= |text| && p' == (if StartsAt(text, p, needle) then p + |needle| else p + 1)
    ensures AtMatch(text, needle, p', k')
  {
    if StartsAt(text, p, needle) {
      MatchHere(text, needle, p, k);
      p', k' := p + |needle|, k + 1;
    } else {
      NoMatchHere(text, needle, p, k);
      p', k' := p + 1, k;
    }
  }

  lemma {:induction false} PassReplacesAll(text: string, needle: string, repl: string, p: nat, k: nat)
    requires needle != "" && AtMatch(text, needle, p, k) && InText(text, AllReplaced(text, needle, repl))
    ensures ReplacedFrom(text, needle, repl, p)
    decreases |text| - p
  {
    if p == |text| {
      ReplacedEnd(text, needle, repl);
    } else {
      var p', k' := NextPlace(text, needle, p, k);
      PassReplacesAll(text, needle, repl, p', k');
      ReplacedHere(text, needle, repl, p, k, p');
    }
  }

  lemma SubstituteReplacesAll(text: string, needle: string, repl: string)
    requires needle != ""
    ensures InText(text, AllReplaced(text, needle, repl))
    ensures Substitute(text, AllReplaced(text, needle, repl)) == ReplaceAll(text, needle, repl)
  {
    AllReplacedValid(text, needle, repl);
    assert MatchesFrom(text, 0, needle)[0..] == MatchesFrom(text, 0, needle);
    PassReplacesAll(text, needle, repl, 0, 0);
    assert text[0..] == text;
  }

  lemma {:induction false} NoMatches(text: string, offset: nat, needle: string)
    requires needle != "" && offset <= |text|
    ensures MatchesFrom(text, offset, needle) == [] <==> forall i :: offset <= i < |text| ==> !StartsAt(text, i, needle)
  {
  }

  lemma ResolvesToAll(t: string, e: Edit)
    requires e.operation.ReplaceText? && e.allMatches && ValidateFields(e).None?
    ensures var needle, repl := Normalize(e.oldText), Normalize(e.newText.value);
            Resolutions(t, LinesFrom(t, 0), [e], 0, [])
            == if MatchesFrom(t, 0, needle) == [] then Err(At(0, NotFound)) else Ok(AllReplaced(t, needle, repl))
  {
    var needle, repl := Normalize(e.oldText), Normalize(e.newText.value);
    var lines, all := LinesFrom(t, 0), MatchesFrom(t, 0, needle);
    assert Resolution(t, lines, e) == if all == [] then Err(NotFound) else Ok(AtMatches(all, repl));
    if all != [] {
      var numbered := AllReplaced(t, needle, repl);
      assert Resolutions(t, lines, [e], 0, []) == Resolutions(t, lines, [e], 1, [] + numbered);
      assert [] + numbered == numbered;
    }
  }

  /** The only edit of a batch, with all_matches: never refused, and the replace-all of the
      normalised text, unless nothing matches. */
  lemma ReplaceTextAll(text: string, e: Edit, r: Result<string, EditError>)
    requires e.operation.ReplaceText? && e.allMatches && ValidateFields(e).None? && Applied(text, [e], r)
    ensures var t, needle := Normalize(text), Normalize(e.oldText);
            r == if forall i :: 0 <= i < |t| ==> !StartsAt(t, i, needle) then Err(At(0, NotFound))
                 else Ok(ReplaceAll(t, needle, Normalize(e.newText.value)))
  {
    var t, needle, repl := Normalize(text), Normalize(e.oldText), Normalize(e.newText.value);
    ResolvesToAll(t, e);
    NoMatches(t, 0, needle);
    AllReplacedValid(t, needle, repl);
    SubstituteReplacesAll(t, needle, repl);
  }
}
