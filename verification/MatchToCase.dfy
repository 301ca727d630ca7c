/** The saga fed by the matching-service: what its cases inherit from the matches. */
module MatchToCase {
  import opened Domain
  import opened MatchIndex
  import opened MatchLifecycle
  import opened AcceptedMatches
  import Recovery = RecoveryCases
  import RecoverySaga
  import SagaGrammar

  /** The delivery carries an event of the matching-service's outbox: its id is the entry's position,
      and an acceptance names the row and repeats its items and who decided. */
  predicate ComesFrom(outbox: seq<MatchEvent>, a: Recovery.SagaAction) {
    a.Deliver? && a.event.isMatchAccepted ==>
      && a.event.eventId < |outbox|
      && var entry := outbox[a.event.eventId];
         && entry.kind.MatchAccepted? && entry.matchId == a.event.matchId
         && entry.payload.lost == a.event.lost && entry.payload.found == a.event.found
         && entry.payload.decidedBy == a.event.decidedBy
  }

  predicate FedBy(outbox: seq<MatchEvent>, run: seq<Recovery.SagaAction>) {
    forall k :: 0 <= k < |run| ==> ComesFrom(outbox, run[k])
  }

  /** MAIN: with deliveries from the matching-service, any number of times and in any order, every
      case's log is in the grammar and its match is opened at most once, whatever reasons users give
      for cancelling. */
  lemma MatchedCasesKeepGrammar(matches: seq<MatchAction>, run: seq<Recovery.SagaAction>, id: Recovery.CaseId)
    requires FedBy(Exec(matches).outbox, run) && id < |Recovery.ActAll(Recovery.NO_CASES, run).cases|
    ensures var steps := RecoverySaga.StepsOf(Recovery.ActAll(Recovery.NO_CASES, run), id);
      SagaGrammar.InGrammar(steps) && SagaGrammar.OpensSucceeded(steps) <= 1
  {
    forall i, j | 0 <= i < |run| && 0 <= j < |run| && SagaGrammar.Accepts(run[i]) && SagaGrammar.Accepts(run[j])
                  && run[i].event.matchId == run[j].event.matchId
      ensures run[i].event.eventId == run[j].event.eventId
    {
      assert ComesFrom(Exec(matches).outbox, run[i]) && ComesFrom(Exec(matches).outbox, run[j]);
      AcceptedOnce(matches, run[i].event.eventId, run[j].event.eventId);
    }
    SagaGrammar.OneEventPerMatchKeepsGrammar(run, id);
  }

  /** The case is of an accepted suggestion and of its items, opened for the user who accepted it. */
  predicate CaseFitsMatch(s: MatchStore, c: Recovery.Case) {
    && IsAccepted(s, c.matchId)
    && c.lost == s.rows[c.matchId].lost && c.found == s.rows[c.matchId].found
    && c.openedBy == s.rows[c.matchId].decidedBy
  }

  lemma CaseFromDelivery(matches: seq<MatchAction>, s: Recovery.RecoveryStore, a: Recovery.SagaAction,
                         id: Recovery.CaseId)
    requires RecoverySaga.SagaOk(s) && ComesFrom(Exec(matches).outbox, a)
    requires id < |Recovery.Act(s, a).cases|
    requires id < |s.cases| ==> CaseFitsMatch(Exec(matches), s.cases[id])
    ensures CaseFitsMatch(Exec(matches), Recovery.Act(s, a).cases[id])
  {
    RecoverySaga.ActRealizesEffect(s, a);
    if RecoverySaga.EffectOf(s, a).Some? {
      RecoverySaga.EffectFacts(s, a);
    }
    if id >= |s.cases| {
      LifecycleHolds(matches);
      AcceptanceFitsRow(Exec(matches), a.event.eventId);
    }
  }

  /** MAIN: every case is of an accepted suggestion, holds exactly its two items, and names the user who
      accepted it as the one it was opened by. */
  lemma {:induction false} CasesFitMatches(matches: seq<MatchAction>, run: seq<Recovery.SagaAction>,
                                           id: Recovery.CaseId)
    requires FedBy(Exec(matches).outbox, run) && id < |Recovery.ActAll(Recovery.NO_CASES, run).cases|
    ensures CaseFitsMatch(Exec(matches), Recovery.ActAll(Recovery.NO_CASES, run).cases[id])
  {
    if run != [] {
      var before := run[..|run| - 1];
      var s := Recovery.ActAll(Recovery.NO_CASES, before);
      RecoverySaga.RunsKeepSaga(before);
      if id < |s.cases| { CasesFitMatches(matches, before, id); }
      CaseFromDelivery(matches, s, run[|run| - 1], id);
    }
  }
}
