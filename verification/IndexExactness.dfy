/** The incrementally maintained suggestions always equal a full recomputation. */
module IndexExactness {
  import opened Domain
  import opened Scoring
  import opened MatchIndex

  // ---- The invariant ----

  ghost predicate SamePair(a: Suggestion, b: Suggestion) {
    a.lost == b.lost && a.found == b.found
  }

  ghost predicate OneRowPerPair(rows: seq<Suggestion>) {
    forall i, j :: 0 <= i < j < |rows| ==> !SamePair(rows[i], rows[j])
  }

  /** A pair with a row that is SUGGESTED, ACCEPTED or REJECTED. */
  predicate Held(rows: seq<Suggestion>, lost: ItemId, found: ItemId) {
    var at := FindPair(rows, lost, found);
    at.Some? && !rows[at.value].status.EXPIRED?
  }

  ghost predicate UpToDate(p: Projections, row: Suggestion) {
    var a := AssessIds(p, row.lost, row.found);
    row.score == a.score && row.snapshot == a.snapshot
  }

  /** The pair belongs to the touched item and its other half has not been visited yet. */
  predicate Pending(x: ItemId, done: seq<ItemId>, lost: ItemId, found: ItemId) {
    (lost == x && found !in done) || (found == x && lost !in done)
  }

  /** The index is exact except for the pending pairs of the item being regenerated, whose
      SUGGESTED rows are at least candidates. */
  ghost predicate ExactUpTo(s: MatchStore, x: ItemId, done: seq<ItemId>) {
    && OneRowPerPair(s.rows)
    && (forall i :: 0 <= i < |s.rows| && s.rows[i].status.SUGGESTED? ==>
          && Candidate(s.projections, s.rows[i].lost, s.rows[i].found)
          && (UpToDate(s.projections, s.rows[i]) || Pending(x, done, s.rows[i].lost, s.rows[i].found)))
    && (forall lost, found :: Candidate(s.projections, lost, found) && !Pending(x, done, lost, found) ==>
          Held(s.rows, lost, found))
  }

  ghost predicate Exact(s: MatchStore) {
    && OneRowPerPair(s.rows)
    && (forall i :: 0 <= i < |s.rows| && s.rows[i].status.SUGGESTED? ==>
          Candidate(s.projections, s.rows[i].lost, s.rows[i].found) && UpToDate(s.projections, s.rows[i]))
    && (forall lost, found :: Candidate(s.projections, lost, found) ==> Held(s.rows, lost, found))
  }

  // ---- Lookups by pair ----

  lemma RowIsFound(rows: seq<Suggestion>, at: MatchId)
    requires OneRowPerPair(rows) && at < |rows|
    ensures FindPair(rows, rows[at].lost, rows[at].found) == Some(at)
  {
    var found := FindPair(rows, rows[at].lost, rows[at].found);
    assert SamePair(rows[found.value], rows[at]);
  }

  /** Changing statuses and scores does not move rows between pairs. */
  lemma {:induction false} SamePairsSameLookup(a: seq<Suggestion>, b: seq<Suggestion>, lost: ItemId, found: ItemId)
    requires |a| == |b|
    requires forall i :: 0 <= i < |a| ==> SamePair(a[i], b[i])
    ensures FindPair(a, lost, found) == FindPair(b, lost, found)
  {
    if a != [] {
      var last := |a| - 1;
      SamePairsSameLookup(a[..last], b[..last], lost, found);
      assert SamePair(a[last], b[last]);
    }
  }

  lemma AppendedLookup(rows: seq<Suggestion>, row: Suggestion, lost: ItemId, found: ItemId)
    ensures FindPair(rows + [row], lost, found) ==
            if FindPair(rows, lost, found).Some? then FindPair(rows, lost, found)
            else if row.lost == lost && row.found == found then Some(|rows|)
            else None
  {
    assert (rows + [row])[..|rows|] == rows;
  }

  lemma CandidatesAreKnown(p: Projections, lost: ItemId, found: ItemId)
    requires Candidate(p, lost, found)
    ensures lost in p && found in p && lost != found
    ensures p[lost].classification.LOST? && p[found].classification.FOUND?
    ensures p[lost].status.AVAILABLE? && p[found].status.AVAILABLE?
  {
  }

  // ---- One generation step ----

  /** Overwriting a row of the pair (lost, found) leaves every other pair's lookup alone. */
  lemma OverwrittenRow(rows: seq<Suggestion>, at: MatchId, row: Suggestion)
    requires OneRowPerPair(rows) && at < |rows| && SamePair(rows[at], row)
    ensures OneRowPerPair(rows[at := row])
    ensures forall l, f :: FindPair(rows[at := row], l, f) == FindPair(rows, l, f)
    ensures forall l, f :: !(l == row.lost && f == row.found) ==> Held(rows[at := row], l, f) == Held(rows, l, f)
    ensures Held(rows[at := row], row.lost, row.found) <==> !row.status.EXPIRED?
  {
    var rows' := rows[at := row];
    assert forall i :: 0 <= i < |rows| ==> SamePair(rows[i], rows'[i]);
    forall i, j | 0 <= i < j < |rows'| ensures !SamePair(rows'[i], rows'[j]) {
      assert !SamePair(rows[i], rows[j]);
    }
    forall l, f ensures FindPair(rows', l, f) == FindPair(rows, l, f) {
      SamePairsSameLookup(rows, rows', l, f);
    }
    RowIsFound(rows, at);
  }

  lemma OverwriteStep(s: MatchStore, s': MatchStore, x: ItemId, c: ItemId, done: seq<ItemId>, at: MatchId,
                      row: Suggestion)
    requires x in s.projections && at < |s.rows| && SamePair(s.rows[at], row)
    requires ExactUpTo(s, x, done)
    requires (row.lost, row.found) == NormalizePair(s.projections, x, c)
    requires s'.projections == s.projections && s'.rows == s.rows[at := row]
    requires row.status.SUGGESTED? ==> Candidate(s.projections, row.lost, row.found) && UpToDate(s.projections, row)
    requires row.status.EXPIRED? ==> !Candidate(s.projections, row.lost, row.found)
    ensures ExactUpTo(s', x, done + [c])
  {
    OverwrittenRow(s.rows, at, row);
    forall i | 0 <= i < |s'.rows| && s'.rows[i].status.SUGGESTED?
      ensures Candidate(s'.projections, s'.rows[i].lost, s'.rows[i].found)
      ensures UpToDate(s'.projections, s'.rows[i]) || Pending(x, done + [c], s'.rows[i].lost, s'.rows[i].found)
    {
      if i != at {
        assert s'.rows[i] == s.rows[i];
        assert !SamePair(s.rows[i], s.rows[at]) by {
          if i < at { assert !SamePair(s.rows[i], s.rows[at]); } else { assert !SamePair(s.rows[at], s.rows[i]); }
        }
        StillPending(s, x, c, done, s.rows[i]);
      }
    }
    forall l, f | Candidate(s'.projections, l, f) && !Pending(x, done + [c], l, f)
      ensures Held(s'.rows, l, f)
    {
      if !(l == row.lost && f == row.found) {
        NotPendingBefore(s.projections, x, c, done, l, f);
      }
    }
  }

  /** A row of another pair stays up to date or pending when one more candidate is done. */
  lemma StillPending(s: MatchStore, x: ItemId, c: ItemId, done: seq<ItemId>, row: Suggestion)
    requires x in s.projections
    requires Candidate(s.projections, row.lost, row.found)
    requires UpToDate(s.projections, row) || Pending(x, done, row.lost, row.found)
    requires (row.lost, row.found) != NormalizePair(s.projections, x, c)
    ensures UpToDate(s.projections, row) || Pending(x, done + [c], row.lost, row.found)
  {
    CandidatesAreKnown(s.projections, row.lost, row.found);
  }

  lemma NotPendingBefore(p: Projections, x: ItemId, c: ItemId, done: seq<ItemId>, lost: ItemId, found: ItemId)
    requires x in p && Candidate(p, lost, found) && !Pending(x, done + [c], lost, found)
    requires (lost, found) != NormalizePair(p, x, c)
    ensures !Pending(x, done, lost, found)
  {
    CandidatesAreKnown(p, lost, found);
  }

  lemma InsertStep(s: MatchStore, x: ItemId, c: ItemId, done: seq<ItemId>, lost: ItemId, found: ItemId)
    requires x in s.projections
    requires ExactUpTo(s, x, done)
    requires (lost, found) == NormalizePair(s.projections, x, c)
    requires FindPair(s.rows, lost, found).None?
    requires Candidate(s.projections, lost, found)
    ensures ExactUpTo(Suggest(s, lost, found, AssessIds(s.projections, lost, found)), x, done + [c])
  {
    var s' := Suggest(s, lost, found, AssessIds(s.projections, lost, found));
    var row := s'.rows[|s.rows|];
    assert s'.rows == s.rows + [row];
    forall i | 0 <= i < |s'.rows| && s'.rows[i].status.SUGGESTED?
      ensures Candidate(s'.projections, s'.rows[i].lost, s'.rows[i].found)
      ensures UpToDate(s'.projections, s'.rows[i]) || Pending(x, done + [c], s'.rows[i].lost, s'.rows[i].found)
    {
      if i < |s.rows| {
        StillPending(s, x, c, done, s.rows[i]);
      }
    }
    forall l, f | Candidate(s'.projections, l, f) && !Pending(x, done + [c], l, f)
      ensures Held(s'.rows, l, f)
    {
      AppendedLookup(s.rows, row, l, f);
      if !(l == lost && f == found) {
        NotPendingBefore(s.projections, x, c, done, l, f);
      }
    }
  }

  /** Nothing is done for a pair that is decided, or that is no candidate and has no live row. */
  lemma SkipStep(s: MatchStore, x: ItemId, c: ItemId, done: seq<ItemId>)
    requires x in s.projections
    requires ExactUpTo(s, x, done)
    requires var (lost, found) := NormalizePair(s.projections, x, c);
      && (Candidate(s.projections, lost, found) ==> Held(s.rows, lost, found))
      && (FindPair(s.rows, lost, found).Some? ==> !s.rows[FindPair(s.rows, lost, found).value].status.SUGGESTED?)
    ensures ExactUpTo(s, x, done + [c])
  {
    var (lost, found) := NormalizePair(s.projections, x, c);
    forall i | 0 <= i < |s.rows| && s.rows[i].status.SUGGESTED?
      ensures UpToDate(s.projections, s.rows[i]) || Pending(x, done + [c], s.rows[i].lost, s.rows[i].found)
    {
      RowIsFound(s.rows, i);
      StillPending(s, x, c, done, s.rows[i]);
    }
    forall l, f | Candidate(s.projections, l, f) && !Pending(x, done + [c], l, f)
      ensures Held(s.rows, l, f)
    {
      if !(l == lost && f == found) {
        NotPendingBefore(s.projections, x, c, done, l, f);
      }
    }
  }

  lemma GenerateOneStep(s: MatchStore, x: ItemId, c: ItemId, done: seq<ItemId>)
    requires x in s.projections
    requires ExactUpTo(s, x, done)
    ensures ExactUpTo(GenerateOne(s, x, c), x, done + [c])
  {
    var (lost, found) := NormalizePair(s.projections, x, c);
    var a := AssessIds(s.projections, lost, found);
    var at := FindPair(s.rows, lost, found);
    var s' := GenerateOne(s, x, c);
    if at.None? {
      if a.isCandidate { InsertStep(s, x, c, done, lost, found); } else { SkipStep(s, x, c, done); }
    } else if s'.rows != s.rows || s.rows[at.value].status.SUGGESTED? {
      OverwriteStep(s, s', x, c, done, at.value, s'.rows[at.value]);
    } else {
      SkipStep(s, x, c, done);
    }
  }

  lemma {:induction false} GenerateAllSteps(s: MatchStore, x: ItemId, candidates: seq<ItemId>)
    requires x in s.projections
    requires ExactUpTo(s, x, [])
    ensures ExactUpTo(GenerateAll(s, x, candidates), x, candidates)
  {
    if candidates != [] {
      var last := |candidates| - 1;
      GenerateAllSteps(s, x, candidates[..last]);
      GenerateOneStep(GenerateAll(s, x, candidates[..last]), x, candidates[last], candidates[..last]);
      assert candidates == candidates[..last] + [candidates[last]];
    }
  }

  // ---- A whole transaction ----

  /** Only pairs of the touched item can change their assessment. */
  lemma OtherPairsUnaffected(p: Projections, p': Projections, x: ItemId, lost: ItemId, found: ItemId)
    requires forall y :: y != x ==> Lookup(p, y) == Lookup(p', y)
    requires lost != x && found != x
    ensures AssessIds(p, lost, found) == AssessIds(p', lost, found)
  {
  }

  lemma AfterExpiry(s: MatchStore, x: ItemId, p: Projections)
    requires Exact(s)
    requires forall y :: y != x ==> Lookup(s.projections, y) == Lookup(p, y)
    ensures ExactUpTo(s.(projections := p, rows := ExpireInvalid(p, x, s.rows)), x, [])
  {
    var rows' := ExpireInvalid(p, x, s.rows);
    assert forall i :: 0 <= i < |rows'| ==> SamePair(s.rows[i], rows'[i]);
    forall i, j | 0 <= i < j < |rows'| ensures !SamePair(rows'[i], rows'[j]) {
      assert !SamePair(s.rows[i], s.rows[j]);
    }
    forall i | 0 <= i < |rows'| && rows'[i].status.SUGGESTED?
      ensures Candidate(p, rows'[i].lost, rows'[i].found)
      ensures UpToDate(p, rows'[i]) || Pending(x, [], rows'[i].lost, rows'[i].found)
    {
      assert rows'[i] == s.rows[i];
      if !Touches(s.rows[i], x) {
        OtherPairsUnaffected(s.projections, p, x, rows'[i].lost, rows'[i].found);
      }
    }
    forall l, f | Candidate(p, l, f) && !Pending(x, [], l, f) ensures Held(rows', l, f) {
      OtherPairsUnaffected(s.projections, p, x, l, f);
      assert Held(s.rows, l, f);
      SamePairsSameLookup(s.rows, rows', l, f);
      var at := FindPair(s.rows, l, f).value;
      assert rows'[at] == s.rows[at];
    }
  }

  lemma NothingPending(s: MatchStore, x: ItemId, candidates: seq<ItemId>)
    requires x in s.projections
    requires ExactUpTo(s, x, candidates)
    requires IsItemEligible(Some(s.projections[x])) ==> CandidateQuery(s.projections, x, candidates)
    ensures Exact(s)
  {
    forall l, f | Candidate(s.projections, l, f) ensures !Pending(x, candidates, l, f) {
      CandidatesAreKnown(s.projections, l, f);
    }
  }

  lemma ReindexKeepsExact(s: MatchStore, x: ItemId, p: Projections, candidates: seq<ItemId>)
    requires Exact(s) && x in p
    requires forall y :: y != x ==> Lookup(s.projections, y) == Lookup(p, y)
    requires IsItemEligible(Some(p[x])) ==> CandidateQuery(p, x, candidates)
    ensures Exact(Reindex(s, x, p, candidates))
  {
    var expired := s.(projections := p, rows := ExpireInvalid(p, x, s.rows));
    AfterExpiry(s, x, p);
    if IsItemEligible(Some(p[x])) {
      GenerateAllSteps(expired, x, candidates);
      NothingPending(GenerateAll(expired, x, candidates), x, candidates);
    } else {
      NothingPending(expired, x, []);
    }
  }

  lemma DecideKeepsExact(s: MatchStore, id: MatchId, d: Decision, user: Option<UserId>)
    requires Exact(s)
    ensures Exact(Decide(s, id, d, user).0)
  {
    var s' := Decide(s, id, d, user).0;
    if s' != s {
      OverwrittenRow(s.rows, id, s'.rows[id]);
    }
  }

  lemma ApplyKeepsExact(s: MatchStore, a: MatchAction)
    requires Exact(s) && Enabled(s, a)
    ensures Exact(Apply(s, a))
  {
    match a
    case Delivery(e, candidates) =>
      var u := UpsertProjection(s.projections, e);
      if u.Applied? && s != Apply(s, a) {
        ReindexKeepsExact(s, u.id, u.projections, candidates);
      }
    case Decided(id, d, user) => DecideKeepsExact(s, id, d, user);
  }

  lemma {:induction false} RunsAreExact(run: seq<MatchAction>)
    requires ValidRun(run)
    ensures Exact(Exec(run))
  {
    if run != [] {
      var before := run[..|run| - 1];
      RunsAreExact(before);
      ApplyKeepsExact(Exec(before), run[|run| - 1]);
    }
  }

  // ---- The full recomputation it equals ----

  type Pair = (ItemId, ItemId)

  function PairsWith(rows: seq<Suggestion>, keep: MatchStatus -> bool): set<Pair> {
    set i | 0 <= i < |rows| && keep(rows[i].status) :: (rows[i].lost, rows[i].found)
  }

  function SuggestedPairs(s: MatchStore): set<Pair> {
    PairsWith(s.rows, (status: MatchStatus) => status.SUGGESTED?)
  }

  function DecidedPairs(s: MatchStore): set<Pair> {
    PairsWith(s.rows, (status: MatchStatus) => status.ACCEPTED? || status.REJECTED?)
  }

  /** Every pair of items the business rule accepts. */
  function CandidatePairs(items: Projections): set<Pair> {
    set lost, found | lost in items && found in items && IsCandidatePair(Some(items[lost]), Some(items[found]))
      :: (lost, found)
  }

  lemma CandidateMeansPair(p: Projections, lost: ItemId, found: ItemId)
    ensures Candidate(p, lost, found) <==> (lost, found) in CandidatePairs(p)
  {
  }

  lemma RowStatusOfPair(s: MatchStore, lost: ItemId, found: ItemId)
    requires OneRowPerPair(s.rows)
    ensures var at := FindPair(s.rows, lost, found);
      && ((lost, found) in SuggestedPairs(s) <==> at.Some? && s.rows[at.value].status.SUGGESTED?)
      && ((lost, found) in DecidedPairs(s) <==>
            at.Some? && (s.rows[at.value].status.ACCEPTED? || s.rows[at.value].status.REJECTED?))
  {
    var at := FindPair(s.rows, lost, found);
    forall i | 0 <= i < |s.rows| && s.rows[i].lost == lost && s.rows[i].found == found ensures at == Some(i) {
      RowIsFound(s.rows, i);
    }
  }

  lemma ExactMeansRecomputed(s: MatchStore)
    requires Exact(s)
    ensures SuggestedPairs(s) == CandidatePairs(s.projections) - DecidedPairs(s)
  {
    forall lost: ItemId, found: ItemId
      ensures (lost, found) in SuggestedPairs(s) <==>
              (lost, found) in CandidatePairs(s.projections) - DecidedPairs(s)
    {
      RowStatusOfPair(s, lost, found);
      CandidateMeansPair(s.projections, lost, found);
      var at := FindPair(s.rows, lost, found);
      assert Candidate(s.projections, lost, found) ==> Held(s.rows, lost, found);
    }
  }

  /** MAIN: after any sequence of deliveries (new, duplicated, stale, reordered, reclassifying) and
      decisions, there is one row per pair, and the SUGGESTED pairs are exactly the pairs the rule
      accepts on the current projections, less those already decided. */
  lemma IndexEqualsRecomputation(run: seq<MatchAction>)
    requires ValidRun(run)
    ensures OneRowPerPair(Exec(run).rows)
    ensures SuggestedPairs(Exec(run)) == CandidatePairs(Exec(run).projections) - DecidedPairs(Exec(run))
  {
    RunsAreExact(run);
    ExactMeansRecomputed(Exec(run));
  }

  /** MAIN: a SUGGESTED row's score and snapshot are what the rule gives on the current projections,
      though a delivery rescores only the pairs of one item. */
  lemma SuggestionsAreFresh(run: seq<MatchAction>, id: MatchId)
    requires ValidRun(run) && id < |Exec(run).rows| && Exec(run).rows[id].status.SUGGESTED?
    ensures var s := Exec(run); var row := s.rows[id];
      && row.lost in s.projections && row.found in s.projections
      && var a := Assess(Some(s.projections[row.lost]), Some(s.projections[row.found]));
         a.isCandidate && row.score == a.score && row.snapshot == a.snapshot
  {
    RunsAreExact(run);
    CandidatesAreKnown(Exec(run).projections, Exec(run).rows[id].lost, Exec(run).rows[id].found);
  }

  /** The re-check at decision time never finds a stale suggestion: a decision is refused only for
      a missing match or one that is not SUGGESTED. */
  lemma RecheckNeverFires(run: seq<MatchAction>, id: MatchId, d: Decision, user: Option<UserId>)
    requires ValidRun(run)
    ensures var (_, r) := Decide(Exec(run), id, d, user);
      r.Ok? <==> id < |Exec(run).rows| && Exec(run).rows[id].status.SUGGESTED?
  {
    RunsAreExact(run);
  }
}
