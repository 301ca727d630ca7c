/** What a request to the matching-service brings about, in terms of the rows and events it leaves. */
module MatchOutcomes {
  import opened Domain
  import opened Seqs
  import opened MatchIndex
  import opened IndexExactness
  import opened MatchLifecycle

  // ---- Decisions ----

  /** The decided row: as suggested, with the decision and who made it. */
  function DecidedRow(row: Suggestion, d: Decision, user: Option<UserId>): Suggestion {
    Suggestion(row.lost, row.found, row.score, row.snapshot, if d.Accept? then ACCEPTED else REJECTED, user)
  }

  /** A decision that succeeds decides its row, announces exactly that, and touches nothing else; one
      that is refused says why. */
  lemma DecisionOutcome(s: MatchStore, id: MatchId, d: Decision, user: Option<UserId>)
    ensures var (s', r) := Decide(s, id, d, user);
      && (r == Err(MatchNotFound) <==> id >= |s.rows|)
      && (r == Err(AlreadyRejected) <==> id < |s.rows| && s.rows[id].status == REJECTED)
      && (r == Err(AlreadyAccepted) <==> id < |s.rows| && s.rows[id].status == ACCEPTED)
      && (r == Err(AlreadyExpired) <==> id < |s.rows| && s.rows[id].status == EXPIRED)
      && (r.Err? && r.error != NotEligibleForDecision ==> s' == s)
      && (r.Ok? ==>
            && id < |s.rows| && s.rows[id].status == SUGGESTED
            && var row, kind := DecidedRow(s.rows[id], d, user), if d.Accept? then MatchAccepted else MatchRejected;
               && r.value == row
               && s' == MatchStore(s.projections, s.rows[id := row], s.processed, s.outbox + [MatchEvent(kind, id, row)]))
  {
  }

  /** MAIN: a decision takes effect for good. After one that succeeded, whatever comes later, its row is
      the suggested one with the decision and its user, the pair is decided and no longer suggested, and
      the decision itself enqueued exactly one event, which carries that row. */
  lemma DecisionTakesEffect(run: seq<MatchAction>, id: MatchId, d: Decision, user: Option<UserId>,
                            later: seq<MatchAction>)
    requires ValidRun(run + [Decided(id, d, user)] + later)
    requires Decide(Exec(run), id, d, user).1.Ok?
    ensures var s, s2 := Exec(run), Exec(run + [Decided(id, d, user)] + later);
      && id < |s.rows| && s.rows[id].status == SUGGESTED
      && id < |s2.rows| && s2.rows[id] == DecidedRow(s.rows[id], d, user)
      && Exec(run + [Decided(id, d, user)]).outbox ==
           s.outbox + [MatchEvent(if d.Accept? then MatchAccepted else MatchRejected, id, s2.rows[id])]
      && (s.rows[id].lost, s.rows[id].found) in DecidedPairs(s2)
      && (s.rows[id].lost, s.rows[id].found) !in SuggestedPairs(s2)
  {
    var longer := run + [Decided(id, d, user)];
    assert longer[..|longer| - 1] == run;
    assert Exec(longer) == Apply(Exec(run), Decided(id, d, user));
    DecisionOutcome(Exec(run), id, d, user);
    DecisionsAreFinal(longer, later, id);
    RunsAreExact(longer + later);
    DecidedRowDecidesPair(Exec(longer + later), id);
  }

  lemma DecidedRowDecidesPair(s: MatchStore, id: MatchId)
    requires Exact(s) && id < |s.rows| && IsDecided(s.rows[id])
    ensures (s.rows[id].lost, s.rows[id].found) in DecidedPairs(s)
    ensures (s.rows[id].lost, s.rows[id].found) !in SuggestedPairs(s)
  {
    RowIsFound(s.rows, id);
    RowStatusOfPair(s, s.rows[id].lost, s.rows[id].found);
  }

  predicate IsOpenRow(row: Suggestion) {
    row.status == SUGGESTED || row.status == EXPIRED
  }

  /** Only decided rows name a user. */
  predicate NoEarlyDecider(s: MatchStore) {
    forall i :: 0 <= i < |s.rows| && IsOpenRow(s.rows[i]) ==> s.rows[i].decidedBy == None
  }

  lemma {:induction false} GenerateAllNamesNone(s: MatchStore, x: ItemId, candidates: seq<ItemId>)
    requires x in s.projections && NoEarlyDecider(s)
    ensures NoEarlyDecider(GenerateAll(s, x, candidates))
  {
    if candidates != [] {
      GenerateAllNamesNone(s, x, candidates[..|candidates| - 1]);
    }
  }

  lemma ApplyNamesNone(s: MatchStore, a: MatchAction)
    requires NoEarlyDecider(s)
    ensures NoEarlyDecider(Apply(s, a))
  {
    match a
    case Delivery(e, candidates) =>
      var u := UpsertProjection(s.projections, e);
      if u.Applied? && Apply(s, a) != s {
        var expired := s.(projections := u.projections, rows := ExpireInvalid(u.projections, u.id, s.rows));
        GenerateAllNamesNone(expired, u.id, candidates);
      }
    case Decided(id, d, user) =>
  }

  /** Over every run, suggested and expired rows name no user, revived ones included. */
  lemma {:induction false} OnlyDecidedRowsNameUsers(run: seq<MatchAction>)
    ensures NoEarlyDecider(Exec(run))
  {
    if run != [] {
      OnlyDecidedRowsNameUsers(run[..|run| - 1]);
      ApplyNamesNone(Exec(run[..|run| - 1]), run[|run| - 1]);
    }
  }

  // ---- Deliveries ----

  predicate IsStale(s: MatchStore, e: Envelope) {
    e.aggregateId in s.projections && e.aggregateVersion <= s.projections[e.aggregateId].version
  }

  /** The answer lists exactly the item's suggestions, oldest first. */
  ghost predicate ListsSuggestions(s: MatchStore, x: ItemId, ids: seq<MatchId>) {
    && (forall id: MatchId :: id in ids <==>
          id < |s.rows| && s.rows[id].status == SUGGESTED && (s.rows[id].lost == x || s.rows[id].found == x))
    && (forall i, j :: 0 <= i < j < |ids| ==> ids[i] < ids[j])
  }

  /** A delivery is answered with the item's suggestions as they are then, or with nothing when it was
      processed before. A newer one stores its payload, a stale one only registers. */
  lemma DeliveryOutcome(s: MatchStore, e: Envelope, candidates: seq<ItemId>)
    requires e.payload.id == e.aggregateId
    ensures var (s', r) := Consume(s, e, candidates);
      if e.eventType.OtherEvent? then s' == s && r == Err(UnsupportedEvent)
      else if e.eventId in s.processed then s' == s && r == Ok([])
      else
        && r.Ok? && ListsSuggestions(s', e.aggregateId, r.value)
        && s'.processed == s.processed + {e.eventId}
        && (IsStale(s, e) ==> s' == s.(processed := s'.processed))
        && (!IsStale(s, e) ==> s'.projections == s.projections[e.aggregateId := e.payload])
  {
    if !e.eventType.OtherEvent? && e.eventId !in s.processed {
      var u := UpsertProjection(s.projections, e);
      if u.Applied? {
        GenerateAllRegistersNone(
          s.(projections := u.projections, rows := ExpireInvalid(u.projections, u.id, s.rows)), u.id, candidates);
      }
    }
  }

  lemma {:induction false} GenerateAllRegistersNone(s: MatchStore, x: ItemId, candidates: seq<ItemId>)
    requires x in s.projections
    ensures GenerateAll(s, x, candidates).processed == s.processed
  {
    if candidates != [] {
      GenerateAllRegistersNone(s, x, candidates[..|candidates| - 1]);
    }
  }

  // ---- What is announced ----

  /** The event of the k-th entry carries its row as it stands, and fits the row's status. */
  predicate ShowsRow(s: MatchStore, k: nat)
    requires k < |s.outbox|
  {
    var e := s.outbox[k];
    && e.matchId < |s.rows| && e.payload == s.rows[e.matchId]
    && match e.kind
       case MatchSuggested => e.payload.status == SUGGESTED
       case MatchAccepted => e.payload.status == ACCEPTED
       case MatchRejected => e.payload.status == REJECTED
  }

  /** The entry's row is of a pair of the item with one of the candidates. */
  predicate PairOf(s: MatchStore, k: nat, x: ItemId, candidates: seq<ItemId>)
    requires k < |s.outbox|
  {
    var row := s.outbox[k].payload;
    (row.lost == x && row.found in candidates) || (row.found == x && row.lost in candidates)
  }

  ghost predicate NewEntriesShow(n: nat, s: MatchStore, x: ItemId, candidates: seq<ItemId>) {
    n <= |s.outbox| && forall k: nat :: n <= k < |s.outbox| ==> ShowsRow(s, k) && PairOf(s, k, x, candidates)
  }

  lemma GenerateOneShows(n: nat, s: MatchStore, x: ItemId, c: ItemId, done: seq<ItemId>)
    requires x in s.projections && c !in done && c != x
    requires NewEntriesShow(n, s, x, done)
    ensures NewEntriesShow(n, GenerateOne(s, x, c), x, done + [c])
  {
    var s' := GenerateOne(s, x, c);
    forall k: nat | n <= k < |s'.outbox| ensures ShowsRow(s', k) && PairOf(s', k, x, done + [c]) {
      if k < |s.outbox| {
        assert s'.outbox[k] == s.outbox[k];
        assert ShowsRow(s, k) && PairOf(s, k, x, done);
      }
    }
  }

  lemma {:induction false} GenerateAllShows(n: nat, s: MatchStore, x: ItemId, candidates: seq<ItemId>)
    requires x in s.projections && Distinct(candidates) && x !in candidates && n == |s.outbox|
    ensures NewEntriesShow(n, GenerateAll(s, x, candidates), x, candidates)
  {
    if candidates != [] {
      var done, c := candidates[..|candidates| - 1], candidates[|candidates| - 1];
      GenerateAllShows(n, s, x, done);
      assert c in candidates && c !in done;
      GenerateOneShows(n, GenerateAll(s, x, done), x, c, done);
      assert candidates == done + [c];
    }
  }

  /** MAIN: every event a step enqueues carries its row as that step leaves it: a suggestion SUGGESTED,
      an acceptance ACCEPTED, a rejection REJECTED. */
  lemma NewEventsShowRows(s: MatchStore, a: MatchAction, k: nat)
    requires Enabled(s, a) && |s.outbox| <= k < |Apply(s, a).outbox|
    ensures ShowsRow(Apply(s, a), k)
  {
    match a
    case Delivery(e, candidates) =>
      var u := UpsertProjection(s.projections, e);
      var expired := s.(projections := u.projections, rows := ExpireInvalid(u.projections, u.id, s.rows));
      GenerateAllShows(|s.outbox|, expired, u.id, candidates);
      assert ShowsRow(GenerateAll(expired, u.id, candidates), k);
    case Decided(id, d, user) => DecisionOutcome(s, id, d, user);
  }
}
