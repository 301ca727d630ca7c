/** What every run of the recovery saga keeps, whatever the item-service answers. */
module RecoverySaga {
  import opened Domain
  import opened Seqs
  import opened RecoveryCases

  function StepOfCase(id: CaseId): SagaStep -> bool {
    (step: SagaStep) => step.caseId == id
  }

  function EventOfCase(id: CaseId): CaseEvent -> bool {
    (e: CaseEvent) => e.caseId == id
  }

  function StepsOf(s: RecoveryStore, id: CaseId): seq<SagaStep> {
    Filter(s.steps, StepOfCase(id))
  }

  function EventsOf(s: RecoveryStore, id: CaseId): seq<CaseEvent> {
    Filter(s.events, EventOfCase(id))
  }

  // ---- The saga log, read two ways ----

  /** The status a case must have after a log. */
  function Replay(steps: seq<SagaStep>): CaseStatus {
    if steps == [] then OPEN
    else
      var last := steps[|steps| - 1];
      match last.name
      case OpenStep => if last.status.SUCCEEDED? then IN_PROGRESS else CaseStatus.CANCELLED
      case CancelStep => if last.status.SUCCEEDED? then CaseStatus.CANCELLED else Replay(steps[..|steps| - 1])
      case CompleteStep => if last.status.SUCCEEDED? then COMPLETED else Replay(steps[..|steps| - 1])
  }

  function EventOfStep(name: StepName): CaseEventType {
    match name
    case OpenStep => RecoveryCaseOpened
    case CancelStep => RecoveryCaseCancelled
    case CompleteStep => RecoveryCaseCompleted
  }

  /** The events a log must have produced: one per succeeded step, in order. */
  function ExpectedEvents(steps: seq<SagaStep>): seq<CaseEventType> {
    if steps == [] then []
    else
      var last := steps[|steps| - 1];
      ExpectedEvents(steps[..|steps| - 1]) + (if last.status.SUCCEEDED? then [EventOfStep(last.name)] else [])
  }

  function KindOf(): CaseEvent -> CaseEventType {
    (e: CaseEvent) => e.kind
  }

  /** Each broker message repeats its case event. */
  ghost predicate OutboxMirrorsEvents(s: RecoveryStore) {
    && |s.outbox| == |s.events|
    && forall k :: 0 <= k < |s.events| ==>
         && s.outbox[k].aggregateId == s.events[k].caseId
         && s.outbox[k].kind == s.events[k].kind
         && s.outbox[k].payload == s.events[k].payload
  }

  ghost predicate LogOk(s: RecoveryStore, id: CaseId) {
    if id < |s.cases| then
      && StepsOf(s, id) != []
      && s.cases[id].status == Replay(StepsOf(s, id))
      && Map(EventsOf(s, id), KindOf()) == ExpectedEvents(StepsOf(s, id))
    else
      StepsOf(s, id) == [] && EventsOf(s, id) == []
  }

  ghost predicate OneCasePerMatch(cases: seq<Case>) {
    forall i, j :: 0 <= i < j < |cases| ==> cases[i].matchId != cases[j].matchId
  }

  ghost predicate SagaOk(s: RecoveryStore) {
    && OneCasePerMatch(s.cases)
    && ActiveIndexHolds(s.cases)
    && (forall i :: 0 <= i < |s.cases| ==> !s.cases[i].status.OPEN?)
    && (forall k :: 0 <= k < |s.steps| ==> !s.steps[k].status.STARTED?)
    && (forall id: CaseId :: LogOk(s, id))
    && OutboxMirrorsEvents(s)
  }

  // ---- What one transaction does ----

  /** A transaction that reaches the item-service appends one step to one case. */
  datatype Effect = Effect(id: CaseId, step: SagaStep, after: Case)

  function EffectOf(s: RecoveryStore, a: SagaAction): Option<Effect> {
    match a
    case Deliver(e, reply) =>
      var plan := PlanOpen(s, e);
      if !plan.Call? then None
      else if reply.Refused? then
        Some(Effect(plan.id, SagaStep(plan.id, OpenStep, StepStatus.FAILED),
                    plan.activated.(status := CaseStatus.CANCELLED, reason := Some(FailureReason(reply.message)))))
      else Some(Effect(plan.id, SagaStep(plan.id, OpenStep, SUCCEEDED), plan.activated.(status := IN_PROGRESS)))
    case CancelBy(id, reason, reply) =>
      if CancelRefusal(s, id).Some? then None
      else if reply.Refused? then Some(Effect(id, SagaStep(id, CancelStep, StepStatus.FAILED), s.cases[id]))
      else Some(Effect(id, SagaStep(id, CancelStep, SUCCEEDED),
                       s.cases[id].(status := CaseStatus.CANCELLED, reason := Some(ReasonOrDefault(reason)))))
    case CompleteBy(id, reply) =>
      if CompleteRefusal(s, id).Some? then None
      else if reply.Refused? then Some(Effect(id, SagaStep(id, CompleteStep, StepStatus.FAILED), s.cases[id]))
      else Some(Effect(id, SagaStep(id, CompleteStep, SUCCEEDED), s.cases[id].(status := COMPLETED)))
  }

  ghost predicate Quiet(s: RecoveryStore, s': RecoveryStore) {
    s' == s.(processed := s'.processed)
  }

  ghost predicate Realizes(s: RecoveryStore, s': RecoveryStore, f: Effect) {
    && f.id <= |s.cases| && f.step.caseId == f.id
    && s'.cases == PutCase(s.cases, f.id, f.after)
    && s'.steps == s.steps + [f.step]
    && (f.step.status.SUCCEEDED? ==>
          && s'.events == s.events + [CaseEvent(f.id, EventOfStep(f.step.name), f.after)]
          && |s'.outbox| == |s.outbox| + 1
          && s'.outbox ==
               s.outbox + [CaseMessage(f.id, EventOfStep(f.step.name), f.after, s'.outbox[|s.outbox|].causation)])
    && (!f.step.status.SUCCEEDED? ==> s'.events == s.events && s'.outbox == s.outbox)
  }

  /** Facts about the step that the proofs below use. */
  lemma EffectFacts(s: RecoveryStore, a: SagaAction)
    requires SagaOk(s) && EffectOf(s, a).Some?
    ensures var f := EffectOf(s, a).value;
      && f.id <= |s.cases| && f.step.caseId == f.id && !f.step.status.STARTED?
      && (f.id == |s.cases| ==> f.step.name.OpenStep? && CaseOfMatch(s.cases, f.after.matchId).None?)
      && (f.id < |s.cases| ==>
            && f.after.matchId == s.cases[f.id].matchId
            && f.after.lost == s.cases[f.id].lost && f.after.found == s.cases[f.id].found
            && f.after.openedBy == s.cases[f.id].openedBy
            && (if f.step.name.OpenStep? then IsRetryableFailedOpen(s.cases[f.id])
                else s.cases[f.id].status.IN_PROGRESS?))
      && (f.step.name.OpenStep? ==> !HasOtherActiveCase(s.cases, f.after.found, f.id))
      && (f.step.name.OpenStep? && f.step.status.FAILED? ==> IsRetryableFailedOpen(f.after))
      && (f.step.status.FAILED? && !f.step.name.OpenStep? ==> f.id < |s.cases| && f.after == s.cases[f.id])
      && (f.step.status.SUCCEEDED? ==> f.after.status == Replay([f.step]))
  {
  }

  lemma IndexKept(cases: seq<Case>, id: CaseId, c: Case)
    requires ActiveIndexHolds(cases) && id <= |cases|
    requires IsActive(c) ==> !HasOtherActiveCase(cases, c.found, id)
    ensures ActiveIndexHolds(PutCase(cases, id, c))
  {
  }

  /** MAIN: in sequential runs the guard on the found item is enough: the partial unique index never
      rejects a flush or a commit, so the conflict error of that branch never appears. */
  lemma IndexNeverTrips(s: RecoveryStore, e: AcceptedEnvelope, reply: Reply)
    requires ActiveIndexHolds(s.cases)
    ensures ConsumeAccepted(s, e, reply).1 != Err(ActiveCaseConflict)
    ensures ActiveIndexHolds(ConsumeAccepted(s, e, reply).0.cases)
  {
    var existing := CaseOfMatch(s.cases, e.matchId);
    var id := if existing.Some? then existing.value else |s.cases|;
    var c := if existing.Some? then s.cases[id].(status := OPEN, reason := None)
             else Case(e.matchId, e.lost, e.found, OPEN, e.decidedBy, None);
    if !HasOtherActiveCase(s.cases, c.found, id) {
      IndexKept(s.cases, id, c);
      IndexKept(s.cases, id, c.(status := IN_PROGRESS));
      if reply.Refused? {
        IndexKept(s.cases, id, c.(status := CaseStatus.CANCELLED, reason := Some(FailureReason(reply.message))));
      }
    }
  }

  /** A delivery is registered when it finds a case that needs no opening, and when it opens one. */
  predicate Registers(s: RecoveryStore, a: SagaAction) {
    a.Deliver? && (PlanOpen(s, a.event).Register? || (PlanOpen(s, a.event).Call? && a.reply.Accepted?))
  }

  lemma ActRealizesEffect(s: RecoveryStore, a: SagaAction)
    requires ActiveIndexHolds(s.cases)
    ensures var f := EffectOf(s, a); var s' := Act(s, a);
      && (if f.Some? then Realizes(s, s', f.value) else Quiet(s, s'))
      && s'.processed == s.processed + (if Registers(s, a) then {a.event.eventId} else {})
  {
    if a.Deliver? {
      IndexNeverTrips(s, a.event, a.reply);
    }
  }

  lemma ReplayAppend(steps: seq<SagaStep>, step: SagaStep)
    ensures Replay(steps + [step]) ==
            if step.status.SUCCEEDED? || step.name.OpenStep? then Replay([step]) else Replay(steps)
    ensures ExpectedEvents(steps + [step]) ==
            ExpectedEvents(steps) + (if step.status.SUCCEEDED? then [EventOfStep(step.name)] else [])
  {
    assert (steps + [step])[..|steps|] == steps;
  }

  lemma StepKeepsLog(s: RecoveryStore, s': RecoveryStore, f: Effect, id: CaseId)
    requires Realizes(s, s', f) && LogOk(s, id)
    requires !f.step.status.STARTED? && (f.id == |s.cases| ==> f.step.name.OpenStep?)
    requires f.step.status.SUCCEEDED? || f.step.name.OpenStep? ==> f.after.status == Replay([f.step])
    requires f.step.status.FAILED? && !f.step.name.OpenStep? ==> f.id < |s.cases| && f.after == s.cases[f.id]
    ensures LogOk(s', id)
  {
    FilterAppend(s.steps, f.step, StepOfCase(id));
    if f.step.status.SUCCEEDED? {
      FilterAppend(s.events, s'.events[|s.events|], EventOfCase(id));
    }
    if id == f.id {
      ReplayAppend(StepsOf(s, id), f.step);
      if f.step.status.SUCCEEDED? {
        MapAppend(EventsOf(s, id), s'.events[|s.events|], KindOf());
      }
    }
  }

  lemma ActKeepsOk(s: RecoveryStore, a: SagaAction)
    requires SagaOk(s)
    ensures SagaOk(Act(s, a))
  {
    var s' := Act(s, a);
    ActRealizesEffect(s, a);
    if EffectOf(s, a).Some? {
      var f := EffectOf(s, a).value;
      EffectFacts(s, a);
      forall id: CaseId | true ensures LogOk(s', id) {
        assert LogOk(s, id);
        StepKeepsLog(s, s', f, id);
      }
      IndexKept(s.cases, f.id, f.after);
    } else {
      forall id: CaseId | true ensures LogOk(s', id) {
        assert LogOk(s, id);
      }
    }
  }

  /** MAIN: over every run each case's status is the replay of its saga steps, its events are its
      succeeded steps in order, the outbox mirrors the events, no case is left OPEN, no step is left
      STARTED, a match has at most one case, and a found item at most one active case. */
  lemma {:induction false} RunsKeepSaga(run: seq<SagaAction>)
    ensures SagaOk(ActAll(NO_CASES, run))
  {
    if run == [] {
      assert forall id: CaseId :: LogOk(NO_CASES, id);
    } else {
      RunsKeepSaga(run[..|run| - 1]);
      ActKeepsOk(ActAll(NO_CASES, run[..|run| - 1]), run[|run| - 1]);
    }
  }

  // ---- Processed events ----

  function EventsDelivered(run: seq<SagaAction>): set<AcceptedEnvelope> {
    set k | 0 <= k < |run| && run[k].Deliver? :: run[k].event
  }

  /** Every processed id is that of a delivered event whose match has a case. */
  ghost predicate ProcessedKnown(s: RecoveryStore, events: set<AcceptedEnvelope>) {
    forall id :: id in s.processed ==>
      exists e :: e in events && e.eventId == id && CaseOfMatch(s.cases, e.matchId).Some?
  }

  lemma CasesKeepMatches(s: RecoveryStore, a: SagaAction, matchId: MatchId)
    requires SagaOk(s) && CaseOfMatch(s.cases, matchId).Some?
    ensures CaseOfMatch(Act(s, a).cases, matchId).Some?
  {
    ActRealizesEffect(s, a);
    var id := CaseOfMatch(s.cases, matchId).value;
    if EffectOf(s, a).Some? { EffectFacts(s, a); }
    assert Act(s, a).cases[id].matchId == matchId;
  }

  lemma ProcessedByAct(s: RecoveryStore, a: SagaAction, id: EventId)
    requires SagaOk(s) && id in Act(s, a).processed && id !in s.processed
    ensures a.Deliver? && a.event.eventId == id && CaseOfMatch(Act(s, a).cases, a.event.matchId).Some?
  {
    ActRealizesEffect(s, a);
    if EffectOf(s, a).Some? { EffectFacts(s, a); }
    if a.Deliver? {
      var r := ConsumeAccepted(s, a.event, a.reply).1;
      assert Act(s, a).cases[r.value].matchId == a.event.matchId;
    }
  }

  lemma {:induction false} RunsKnowProcessed(run: seq<SagaAction>)
    ensures ProcessedKnown(ActAll(NO_CASES, run), EventsDelivered(run))
  {
    if run != [] {
      var before, a := run[..|run| - 1], run[|run| - 1];
      var s := ActAll(NO_CASES, before);
      RunsKnowProcessed(before);
      RunsKeepSaga(before);
      var s' := Act(s, a);
      forall id | id in s'.processed
        ensures exists e :: e in EventsDelivered(run) && e.eventId == id && CaseOfMatch(s'.cases, e.matchId).Some?
      {
        if id in s.processed {
          var e :| e in EventsDelivered(before) && e.eventId == id && CaseOfMatch(s.cases, e.matchId).Some?;
          var k :| 0 <= k < |before| && before[k].Deliver? && before[k].event == e;
          assert run[k] == before[k];
          CasesKeepMatches(s, a, e.matchId);
        } else {
          ProcessedByAct(s, a, id);
          assert run[|run| - 1].event in EventsDelivered(run);
        }
      }
    }
  }

  /** MAIN: if an event id names one event, the "processed but no case" error never appears. */
  lemma ProcessedEventsHaveCases(run: seq<SagaAction>, e: AcceptedEnvelope, reply: Reply)
    requires forall f :: f in EventsDelivered(run) && f.eventId == e.eventId ==> f == e
    ensures ConsumeAccepted(ActAll(NO_CASES, run), e, reply).1 != Err(ProcessedButMissing)
  {
    RunsKnowProcessed(run);
  }
}
