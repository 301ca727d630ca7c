/** What the matching-service announces about each suggestion, over whole runs. */
module MatchLifecycle {
  import opened Domain
  import opened Seqs
  import opened MatchIndex
  import opened IndexExactness

  function About(id: MatchId): MatchEvent -> bool {
    (e: MatchEvent) => e.matchId == id
  }

  function SuggestedAbout(id: MatchId): MatchEvent -> bool {
    (e: MatchEvent) => e.matchId == id && e.kind.MatchSuggested?
  }

  function EventsAbout(outbox: seq<MatchEvent>, id: MatchId): seq<MatchEvent> {
    Filter(outbox, About(id))
  }

  function SuggestedCount(outbox: seq<MatchEvent>, id: MatchId): nat {
    |Filter(outbox, SuggestedAbout(id))|
  }

  function FinalEvent(status: MatchStatus): MatchEventType {
    match status
    case ACCEPTED => MatchAccepted
    case REJECTED => MatchRejected
    case SUGGESTED => MatchSuggested
    case EXPIRED => MatchSuggested
  }

  /** One or more MatchSuggested, then at most one decision: the last event fits the row's status,
      and a decision event carries the row as it stands. */
  ghost predicate Announced(events: seq<MatchEvent>, row: Suggestion) {
    && events != []
    && events[0].kind.MatchSuggested?
    && (forall k :: 0 <= k < |events| - 1 ==> events[k].kind.MatchSuggested?)
    && events[|events| - 1].kind == FinalEvent(row.status)
    && (row.status.ACCEPTED? || row.status.REJECTED? ==> events[|events| - 1].payload == row)
  }

  ghost predicate AllAnnounced(s: MatchStore) {
    && (forall id: MatchId :: id < |s.rows| ==> Announced(EventsAbout(s.outbox, id), s.rows[id]))
    && (forall id: MatchId :: id >= |s.rows| ==> EventsAbout(s.outbox, id) == [])
  }

  /** A row that changed without an event went between SUGGESTED and EXPIRED, or was rescored. */
  predicate QuietChange(row: Suggestion, row': Suggestion) {
    row == row' || (FinalEvent(row.status).MatchSuggested? && FinalEvent(row'.status).MatchSuggested?)
  }

  lemma QuietStep(s: MatchStore, s': MatchStore)
    requires AllAnnounced(s)
    requires s'.outbox == s.outbox && |s'.rows| == |s.rows|
    requires forall i :: 0 <= i < |s.rows| ==> QuietChange(s.rows[i], s'.rows[i])
    ensures AllAnnounced(s')
  {
    forall id: MatchId | id < |s'.rows| ensures Announced(EventsAbout(s'.outbox, id), s'.rows[id]) {
      assert QuietChange(s.rows[id], s'.rows[id]);
    }
  }

  lemma SpokenStep(s: MatchStore, s': MatchStore, at: MatchId, e: MatchEvent)
    requires AllAnnounced(s)
    requires s'.outbox == s.outbox + [e] && e.matchId == at
    requires at < |s'.rows| && e.payload == s'.rows[at] && e.kind == FinalEvent(s'.rows[at].status)
    requires if at == |s.rows| then s'.rows == s.rows + [s'.rows[at]] && e.kind.MatchSuggested?
             else at < |s.rows| && s'.rows == s.rows[at := s'.rows[at]] && FinalEvent(s.rows[at].status).MatchSuggested?
    ensures AllAnnounced(s')
  {
    forall id: MatchId | true
      ensures if id < |s'.rows| then Announced(EventsAbout(s'.outbox, id), s'.rows[id])
              else EventsAbout(s'.outbox, id) == []
    {
      FilterAppend(s.outbox, e, About(id));
      var before := EventsAbout(s.outbox, id);
      if id < |s.rows| {
        assert Announced(before, s.rows[id]);
        if id == at {
          assert EventsAbout(s'.outbox, id) == before + [e];
          assert before[|before| - 1].kind.MatchSuggested?;
        }
      } else {
        assert before == [];
      }
    }
  }

  lemma GenerateOneAnnounces(s: MatchStore, x: ItemId, c: ItemId)
    requires x in s.projections && AllAnnounced(s)
    ensures AllAnnounced(GenerateOne(s, x, c))
  {
    var (lost, found) := NormalizePair(s.projections, x, c);
    var s' := GenerateOne(s, x, c);
    var at := FindPair(s.rows, lost, found);
    if s'.outbox == s.outbox {
      QuietStep(s, s');
    } else {
      var id := if at.Some? then at.value else |s.rows|;
      SpokenStep(s, s', id, s'.outbox[|s.outbox|]);
    }
  }

  lemma {:induction false} GenerateAllAnnounces(s: MatchStore, x: ItemId, candidates: seq<ItemId>)
    requires x in s.projections && AllAnnounced(s)
    ensures AllAnnounced(GenerateAll(s, x, candidates))
  {
    if candidates != [] {
      var last := |candidates| - 1;
      GenerateAllAnnounces(s, x, candidates[..last]);
      GenerateOneAnnounces(GenerateAll(s, x, candidates[..last]), x, candidates[last]);
    }
  }

  lemma ApplyAnnounces(s: MatchStore, a: MatchAction)
    requires AllAnnounced(s)
    ensures AllAnnounced(Apply(s, a))
  {
    var s' := Apply(s, a);
    match a
    case Delivery(e, candidates) =>
      var u := UpsertProjection(s.projections, e);
      if u.Applied? && s' != s {
        var expired := s.(projections := u.projections, rows := ExpireInvalid(u.projections, u.id, s.rows));
        QuietStep(s, expired);
        GenerateAllAnnounces(expired, u.id, candidates);
      }
    case Decided(id, d, user) =>
      if s'.outbox == s.outbox {
        QuietStep(s, s');
      } else {
        SpokenStep(s, s', id, s'.outbox[|s.outbox|]);
      }
  }

  /** MAIN: over every run, each suggestion's events are one or more MatchSuggested followed by at
      most one MatchAccepted or MatchRejected, the latter present exactly for decided rows. */
  lemma {:induction false} LifecycleHolds(run: seq<MatchAction>)
    ensures AllAnnounced(Exec(run))
  {
    if run != [] {
      var before := run[..|run| - 1];
      LifecycleHolds(before);
      ApplyAnnounces(Exec(before), run[|run| - 1]);
    }
  }

  // ---- How often a suggestion is announced ----

  predicate IsSuggested(s: MatchStore, id: MatchId) {
    id < |s.rows| && s.rows[id].status.SUGGESTED?
  }

  /** 1 when the step took the row into SUGGESTED, else 0. */
  function Entered(s: MatchStore, s': MatchStore, id: MatchId): nat {
    if IsSuggested(s', id) && !IsSuggested(s, id) then 1 else 0
  }

  function Entries(run: seq<MatchAction>, id: MatchId): nat {
    if run == [] then 0
    else
      var before := run[..|run| - 1];
      Entries(before, id) + Entered(Exec(before), Exec(run), id)
  }

  /** While all SUGGESTED rows are candidates, one iteration takes no row out of SUGGESTED, and only
      candidates into it. */
  lemma GenerateOneEnters(s: MatchStore, x: ItemId, c: ItemId, id: MatchId)
    requires x in s.projections
    requires forall i :: 0 <= i < |s.rows| && s.rows[i].status.SUGGESTED? ==>
               Candidate(s.projections, s.rows[i].lost, s.rows[i].found)
    ensures var s' := GenerateOne(s, x, c);
      && (IsSuggested(s, id) ==> IsSuggested(s', id))
      && (id < |s.rows| ==> id < |s'.rows| && SamePair(s.rows[id], s'.rows[id]))
      && (id < |s.rows| && !IsSuggested(s, id) && IsSuggested(s', id) ==>
            Candidate(s.projections, s.rows[id].lost, s.rows[id].found))
  {
  }

  /** One iteration announces exactly the row it takes into SUGGESTED. */
  lemma GenerateOneSpeaks(s: MatchStore, x: ItemId, c: ItemId, id: MatchId)
    requires x in s.projections
    ensures var s' := GenerateOne(s, x, c);
      SuggestedCount(s'.outbox, id) == SuggestedCount(s.outbox, id) + Entered(s, s', id)
  {
    var s' := GenerateOne(s, x, c);
    if s'.outbox != s.outbox {
      FilterAppend(s.outbox, s'.outbox[|s.outbox|], SuggestedAbout(id));
    }
  }

  lemma GenerateOneCounts(s0: MatchStore, s: MatchStore, x: ItemId, c: ItemId, done: seq<ItemId>, id: MatchId)
    requires x in s.projections && ExactUpTo(s, x, done)
    requires SuggestedCount(s.outbox, id) == SuggestedCount(s0.outbox, id) + Entered(s0, s, id)
    requires IsSuggested(s0, id) && !IsSuggested(s, id) ==>
               id < |s.rows| && !Candidate(s.projections, s.rows[id].lost, s.rows[id].found)
    ensures var s' := GenerateOne(s, x, c);
      && SuggestedCount(s'.outbox, id) == SuggestedCount(s0.outbox, id) + Entered(s0, s', id)
      && (IsSuggested(s0, id) && !IsSuggested(s', id) ==>
            id < |s'.rows| && !Candidate(s'.projections, s'.rows[id].lost, s'.rows[id].found))
  {
    GenerateOneEnters(s, x, c, id);
    GenerateOneSpeaks(s, x, c, id);
  }

  lemma {:induction false} GenerateAllCounts(s0: MatchStore, s: MatchStore, x: ItemId, candidates: seq<ItemId>,
                                             id: MatchId)
    requires x in s.projections && ExactUpTo(s, x, [])
    requires SuggestedCount(s.outbox, id) == SuggestedCount(s0.outbox, id) + Entered(s0, s, id)
    requires IsSuggested(s0, id) && !IsSuggested(s, id) ==>
               id < |s.rows| && !Candidate(s.projections, s.rows[id].lost, s.rows[id].found)
    ensures var s' := GenerateAll(s, x, candidates);
      && SuggestedCount(s'.outbox, id) == SuggestedCount(s0.outbox, id) + Entered(s0, s', id)
      && (IsSuggested(s0, id) && !IsSuggested(s', id) ==>
            id < |s'.rows| && !Candidate(s'.projections, s'.rows[id].lost, s'.rows[id].found))
  {
    if candidates != [] {
      var last := |candidates| - 1;
      var done := candidates[..last];
      GenerateAllCounts(s0, s, x, done, id);
      GenerateAllSteps(s, x, done);
      GenerateOneCounts(s0, GenerateAll(s, x, done), x, candidates[last], done, id);
    }
  }

  lemma ReindexCounts(s: MatchStore, x: ItemId, p: Projections, candidates: seq<ItemId>, id: MatchId)
    requires Exact(s) && x in p
    requires forall y :: y != x ==> Lookup(s.projections, y) == Lookup(p, y)
    ensures var s' := Reindex(s, x, p, candidates);
      SuggestedCount(s'.outbox, id) == SuggestedCount(s.outbox, id) + Entered(s, s', id)
  {
    var expired := s.(projections := p, rows := ExpireInvalid(p, x, s.rows));
    AfterExpiry(s, x, p);
    GenerateAllCounts(s, expired, x, candidates, id);
  }

  lemma DecideCounts(s: MatchStore, at: MatchId, d: Decision, user: Option<UserId>, id: MatchId)
    ensures var s' := Decide(s, at, d, user).0;
      SuggestedCount(s'.outbox, id) == SuggestedCount(s.outbox, id) + Entered(s, s', id)
  {
    var s' := Decide(s, at, d, user).0;
    if s'.outbox != s.outbox {
      FilterAppend(s.outbox, s'.outbox[|s.outbox|], SuggestedAbout(id));
    }
  }

  lemma ApplyCounts(s: MatchStore, a: MatchAction, id: MatchId)
    requires Exact(s)
    ensures SuggestedCount(Apply(s, a).outbox, id) == SuggestedCount(s.outbox, id) + Entered(s, Apply(s, a), id)
  {
    match a
    case Delivery(e, candidates) =>
      var u := UpsertProjection(s.projections, e);
      if u.Applied? && Apply(s, a) != s {
        ReindexCounts(s, u.id, u.projections, candidates, id);
      }
    case Decided(at, d, user) => DecideCounts(s, at, d, user, id);
  }

  /** MAIN: a suggestion is announced exactly as often as it entered SUGGESTED. */
  lemma {:induction false} AnnouncedOncePerEntry(run: seq<MatchAction>, id: MatchId)
    requires ValidRun(run)
    ensures SuggestedCount(Exec(run).outbox, id) == Entries(run, id)
  {
    if run != [] {
      var before := run[..|run| - 1];
      AnnouncedOncePerEntry(before, id);
      RunsAreExact(before);
      ApplyCounts(Exec(before), run[|run| - 1], id);
    }
  }

  // ---- Decisions are final ----

  predicate IsDecided(row: Suggestion) {
    row.status.ACCEPTED? || row.status.REJECTED?
  }

  lemma {:induction false} GenerateAllKeepsDecided(s: MatchStore, x: ItemId, candidates: seq<ItemId>, id: MatchId)
    requires x in s.projections && id < |s.rows| && IsDecided(s.rows[id])
    ensures var s' := GenerateAll(s, x, candidates); id < |s'.rows| && s'.rows[id] == s.rows[id]
  {
    if candidates != [] {
      GenerateAllKeepsDecided(s, x, candidates[..|candidates| - 1], id);
    }
  }

  lemma ApplyKeepsDecided(s: MatchStore, a: MatchAction, id: MatchId)
    requires id < |s.rows| && IsDecided(s.rows[id])
    ensures id < |Apply(s, a).rows| && Apply(s, a).rows[id] == s.rows[id]
  {
    if a.Delivery? {
      var u := UpsertProjection(s.projections, a.event);
      if u.Applied? && Apply(s, a) != s {
        GenerateAllKeepsDecided(
          s.(projections := u.projections, rows := ExpireInvalid(u.projections, u.id, s.rows)), u.id, a.candidates, id);
      }
    }
  }

  /** MAIN: a decided suggestion never changes again, whatever is delivered or asked for later. */
  lemma {:induction false} DecisionsAreFinal(run: seq<MatchAction>, later: seq<MatchAction>, id: MatchId)
    requires id < |Exec(run).rows| && IsDecided(Exec(run).rows[id])
    ensures id < |Exec(run + later).rows| && Exec(run + later).rows[id] == Exec(run).rows[id]
  {
    if later == [] {
      assert run + later == run;
    } else {
      var before := later[..|later| - 1];
      DecisionsAreFinal(run, before, id);
      assert (run + later)[..|run + later| - 1] == run + before;
      ApplyKeepsDecided(Exec(run + before), later[|later| - 1], id);
    }
  }
}
