/** The matching-service as it runs: a session whose tables are updated in place, statement by
    statement, and copied to the committed store at commit. */
module MatchingService {
  import opened Domain
  import opened Scoring
  import opened Seqs
  import opened MatchIndex

  class Session {
    // The session's view of the tables. With autoflush off it is the in-memory rows that are read.
    var projections: Projections
    var rows: seq<Suggestion>
    var processed: set<EventId>
    var outbox: seq<MatchEvent>

    var db: MatchStore

    constructor ()
      ensures IsClean() && db == EMPTY_STORE
    {
      projections, rows, processed, outbox := map[], [], {}, [];
      db := EMPTY_STORE;
    }

    function Working(): MatchStore
      reads this
    {
      MatchStore(projections, rows, processed, outbox)
    }

    /** Nothing is pending: what the session sees is what is committed. */
    predicate IsClean()
      reads this
    {
      Working() == db
    }

    method Commit()
      modifies this`db
      ensures IsClean()
    {
      db := Working();
    }

    method AssessRow(lost: ItemId, found: ItemId) returns (a: Assessment)
      ensures a == AssessIds(projections, lost, found)
    {
      a := AssessPair(Lookup(projections, lost), Lookup(projections, found));
    }

    method RecordMatchEvent(id: MatchId, kind: MatchEventType)
      requires id < |rows|
      modifies this`outbox
      ensures outbox == old(outbox) + [MatchEvent(kind, id, rows[id])]
    {
      outbox := outbox + [MatchEvent(kind, id, rows[id])];
    }

    /** Some result the candidate query may return. */
    method ListCandidates(x: ItemId) returns (candidates: seq<ItemId>)
      requires x in projections
      ensures CandidateQuery(projections, x, candidates)
    {
      candidates := [];
      var left := projections.Keys;
      while left != {}
        invariant left <= projections.Keys
        invariant Distinct(candidates)
        invariant forall c :: c in candidates <==>
          c in projections && c !in left && c != x
          && projections[c].classification == Opposite(projections[x].classification)
        decreases left
      {
        var c :| c in left;
        left := left - {c};
        if c != x && projections[c].classification == Opposite(projections[x].classification) {
          candidates := candidates + [c];
        }
      }
    }

    method UpsertItemProjection(e: Envelope) returns (u: Upsert)
      modifies this`projections
      ensures u == UpsertProjection(old(projections), e)
      ensures projections == if u.Applied? then u.projections else old(projections)
    {
      if e.aggregateId in projections {
        var existing := projections[e.aggregateId];
        if e.aggregateVersion <= existing.version {
          return Stale(e.aggregateId);
        }
        projections := projections[e.aggregateId := e.payload.(id := e.aggregateId)];
        return Applied(e.aggregateId, projections);
      }
      if e.payload.id in projections {
        return Collision;
      }
      projections := projections[e.payload.id := e.payload];
      return Applied(e.payload.id, projections);
    }

    method ExpireInvalidMatchesForItem(x: ItemId)
      modifies this`rows
      ensures rows == ExpireInvalid(projections, x, old(rows))
    {
      var suggestions := SuggestedFor(rows, x);
      var n := 0;
      while n < |suggestions|
        invariant 0 <= n <= |suggestions|
        invariant |rows| == |old(rows)|
        invariant forall i: MatchId :: i < |rows| ==>
          rows[i] == if i in suggestions[..n] then ExpireRow(projections, x, old(rows[i])) else old(rows[i])
      {
        var id := suggestions[n];
        assert id in suggestions;
        assert id !in suggestions[..n];
        var a := AssessRow(rows[id].lost, rows[id].found);
        if !a.isCandidate {
          rows := rows[id := rows[id].(status := EXPIRED)];
        }
        assert suggestions[..n + 1] == suggestions[..n] + [id];
        n := n + 1;
      }
      assert suggestions[..n] == suggestions;
    }

    method InsertSuggestion(lost: ItemId, found: ItemId, a: Assessment)
      modifies this`rows, this`outbox
      ensures Working() == Suggest(old(Working()), lost, found, a)
    {
      rows := rows + [Suggestion(lost, found, a.score, a.snapshot, SUGGESTED, None)];
      RecordMatchEvent(|rows| - 1, MatchSuggested);
    }

    /** The loop body for a pair that is no candidate. */
    method ExpireExisting(existing: Option<MatchId>)
      requires existing.Some? ==> existing.value < |rows|
      modifies this`rows
      ensures Working() ==
        if existing.Some? && old(rows)[existing.value].status == SUGGESTED
        then Expire(old(Working()), existing.value)
        else old(Working())
    {
      if existing.Some? && rows[existing.value].status == SUGGESTED {
        rows := rows[existing.value := rows[existing.value].(status := EXPIRED)];
      }
    }

    /** The loop body for a candidate pair that has a row already. */
    method UpdateExisting(at: MatchId, a: Assessment) returns (added: nat)
      requires at < |rows|
      modifies this`rows, this`outbox
      ensures match old(rows[at].status)
        case SUGGESTED => Working() == Refresh(old(Working()), at, a) && added == 0
        case EXPIRED => Working() == Revive(old(Working()), at, a) && added == 1
        case ACCEPTED => Working() == old(Working()) && added == 0
        case REJECTED => Working() == old(Working()) && added == 0
    {
      added := 0;
      if rows[at].status == SUGGESTED {
        rows := rows[at := rows[at].(score := a.score, snapshot := a.snapshot)];
      } else if rows[at].status == EXPIRED {
        rows := rows[at := rows[at].(status := SUGGESTED, score := a.score, snapshot := a.snapshot, decidedBy := None)];
        RecordMatchEvent(at, MatchSuggested);
        added := 1;
      }
    }

    /** The loop body: expires, inserts, rescores or revives the pair's row; returns the number of
        MatchSuggested events enqueued. */
    method SuggestForCandidate(x: ItemId, c: ItemId) returns (added: nat)
      requires x in projections
      modifies this`rows, this`outbox
      ensures Working() == GenerateOne(old(Working()), x, c)
      ensures |outbox| == |old(outbox)| + added
    {
      added := 0;
      var (lost, found) := NormalizePair(projections, x, c);
      var a := AssessRow(lost, found);
      var existing := FindPair(rows, lost, found);
      if !a.isCandidate {
        ExpireExisting(existing);
      } else if existing.None? {
        InsertSuggestion(lost, found, a);
        added := 1;
      } else {
        added := UpdateExisting(existing.value, a);
      }
    }

    /** Returns the number of MatchSuggested events enqueued. */
    method GenerateMatchSuggestionsForItem(x: ItemId) returns (suggested: nat, ghost candidates: seq<ItemId>)
      requires x in projections
      modifies this`rows, this`outbox
      ensures CandidateQuery(projections, x, candidates)
      ensures Working() == GenerateAll(old(Working()), x, candidates)
      ensures |outbox| == |old(outbox)| + suggested
    {
      suggested := 0;
      var queried := ListCandidates(x);
      candidates := queried;
      var n := 0;
      while n < |queried|
        invariant 0 <= n <= |queried|
        invariant Working() == GenerateAll(old(Working()), x, queried[..n])
        invariant |outbox| == |old(outbox)| + suggested
      {
        assert queried[..n + 1][..n] == queried[..n];
        var added := SuggestForCandidate(x, queried[n]);
        suggested := suggested + added;
        n := n + 1;
      }
      assert queried[..n] == queried;
    }

    method ConsumeItemEvent(e: Envelope)
      returns (r: Result<seq<MatchId>, MatchError>, ghost candidates: seq<ItemId>)
      requires IsClean()
      modifies this
      ensures IsClean()
      ensures (db, r) == Consume(old(db), e, candidates)
      ensures Enabled(old(db), Delivery(e, candidates))
    {
      candidates := [];
      if e.eventType.OtherEvent? {
        return Err(UnsupportedEvent), candidates;
      }
      if e.eventId in processed {
        return Ok([]), candidates;
      }
      var upsert := UpsertItemProjection(e);
      if upsert.Collision? {
        return Err(DuplicateProjection), candidates;
      }
      if upsert.Applied? {
        ExpireInvalidMatchesForItem(upsert.id);
        if IsItemEligible(Some(projections[upsert.id])) {
          var suggested;
          suggested, candidates := GenerateMatchSuggestionsForItem(upsert.id);
        }
      }
      processed := processed + {e.eventId};
      Commit();
      r := Ok(SuggestedFor(rows, upsert.id));
    }

    /** Refuses suggestions that are not SUGGESTED; one that is no longer a candidate pair is
        expired and committed before it is refused. */
    method EnsureMatchCanBeDecided(id: MatchId) returns (refusal: Option<MatchError>)
      requires IsClean() && id < |rows|
      modifies this`rows, this`db
      ensures IsClean()
      ensures match old(rows[id].status)
        case REJECTED => refusal == Some(AlreadyRejected) && rows == old(rows)
        case ACCEPTED => refusal == Some(AlreadyAccepted) && rows == old(rows)
        case EXPIRED => refusal == Some(AlreadyExpired) && rows == old(rows)
        case SUGGESTED =>
          if Candidate(projections, old(rows[id].lost), old(rows[id].found)) then refusal.None? && rows == old(rows)
          else refusal == Some(NotEligibleForDecision) && rows == old(rows)[id := Expired(old(rows[id]))]
    {
      if rows[id].status == REJECTED { return Some(AlreadyRejected); }
      if rows[id].status == ACCEPTED { return Some(AlreadyAccepted); }
      if rows[id].status == EXPIRED { return Some(AlreadyExpired); }
      var a := AssessRow(rows[id].lost, rows[id].found);
      if !a.isCandidate {
        rows := rows[id := rows[id].(status := EXPIRED)];
        Commit();
        return Some(NotEligibleForDecision);
      }
      refusal := None;
    }

    method AcceptMatch(id: MatchId, user: Option<UserId>) returns (r: Result<Suggestion, MatchError>)
      requires IsClean()
      modifies this
      ensures IsClean()
      ensures (db, r) == Decide(old(db), id, Accept, user)
    {
      if id >= |rows| { return Err(MatchNotFound); }
      var refusal := EnsureMatchCanBeDecided(id);
      if refusal.Some? { return Err(refusal.value); }
      rows := rows[id := rows[id].(status := ACCEPTED, decidedBy := user)];
      RecordMatchEvent(id, MatchAccepted);
      Commit();
      r := Ok(rows[id]);
    }

    method RejectMatch(id: MatchId, user: Option<UserId>) returns (r: Result<Suggestion, MatchError>)
      requires IsClean()
      modifies this
      ensures IsClean()
      ensures (db, r) == Decide(old(db), id, Reject, user)
    {
      if id >= |rows| { return Err(MatchNotFound); }
      var refusal := EnsureMatchCanBeDecided(id);
      if refusal.Some? { return Err(refusal.value); }
      rows := rows[id := rows[id].(status := REJECTED, decidedBy := user)];
      RecordMatchEvent(id, MatchRejected);
      Commit();
      r := Ok(rows[id]);
    }
  }
}
