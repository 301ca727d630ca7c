/** The recovery-case-service as it runs: a session of its own, and requests to the item-service in
    the middle of its transactions. */
module RecoveryService {
  import opened Domain
  import Items = ItemAggregate
  import ItemService
  import opened RecoveryCases
  import opened JointSaga

  class Session {
    const remote: ItemService.Session

    var cases: seq<Case>
    var steps: seq<SagaStep>
    var events: seq<CaseEvent>
    var outbox: seq<CaseMessage>
    var processed: set<EventId>

    var db: RecoveryStore

    constructor (remote: ItemService.Session)
      ensures this.remote == remote && IsClean() && db == NO_CASES
    {
      this.remote := remote;
      cases, steps, events, outbox, processed := [], [], [], [], {};
      db := NO_CASES;
    }

    function Working(): RecoveryStore
      reads this
    {
      RecoveryStore(cases, steps, events, outbox, processed)
    }

    predicate IsClean()
      reads this
    {
      Working() == db
    }

    function Joint(): JointState
      reads this, remote
    {
      JointState(remote.db, db)
    }

    /** Succeeds unless the partial unique index is violated; otherwise the session is rolled back. */
    method Commit() returns (ok: bool)
      modifies this
      ensures ok <==> ActiveIndexHolds(old(cases))
      ensures IsClean()
      ensures db == if ok then old(Working()) else old(db)
    {
      ok := ActiveIndexHolds(cases);
      if ok {
        db := Working();
      } else {
        Rollback();
      }
    }

    method Rollback()
      modifies this`cases, this`steps, this`events, this`outbox, this`processed
      ensures IsClean()
    {
      cases, steps, events, outbox, processed := db.cases, db.steps, db.events, db.outbox, db.processed;
    }

    /** The three requests the client can make: answered, failed, or carried out with the answer lost. */
    method Call(ids: seq<ItemId>, target: ItemStatus, mode: Items.TransitionMode, net: Network) returns (reply: Reply)
      requires remote.IsClean()
      modifies remote
      ensures remote.IsClean()
      ensures (remote.db, reply) == Remote(old(remote.db), ids, target, mode, net)
    {
      if net.Unreachable? {
        return Refused(net.message);
      }
      var r := remote.TransitionBatch(ids, target, mode);
      if net.ReplyLost? {
        return Refused(net.message);
      }
      reply := if r.Ok? then Accepted else Refused(REJECTED);
    }

    method StartSagaStep(id: CaseId, name: StepName) returns (at: nat)
      modifies this`steps
      ensures steps == old(steps) + [SagaStep(id, name, STARTED)] && at == |old(steps)|
    {
      at := |steps|;
      steps := steps + [SagaStep(id, name, STARTED)];
    }

    method SettleSagaStep(at: nat, status: StepStatus)
      requires at < |steps|
      modifies this`steps
      ensures steps == old(steps)[at := old(steps[at]).(status := status)]
    {
      steps := steps[at := steps[at].(status := status)];
    }

    method RecordCaseEvent(id: CaseId, kind: CaseEventType, causation: Option<EventId>)
      requires id < |cases|
      modifies this`events, this`outbox
      ensures events == old(events) + [CaseEvent(id, kind, cases[id])]
      ensures outbox == old(outbox) + [CaseMessage(id, kind, cases[id], causation)]
    {
      events := events + [CaseEvent(id, kind, cases[id])];
      outbox := outbox + [CaseMessage(id, kind, cases[id], causation)];
    }

    /** Everything before the request: the early exits, or the case put in the session as OPEN. */
    method PrepareOpen(e: AcceptedEnvelope) returns (plan: OpenPlan)
      requires IsClean()
      modifies this`cases
      ensures plan == PlanOpen(db, e)
      ensures if plan.Call? then plan.id <= |db.cases| && cases == PutCase(db.cases, plan.id, plan.activated)
              else IsClean()
    {
      if !e.isMatchAccepted {
        return Stop(Err(UnsupportedEvent));
      }
      var existing := CaseOfMatch(cases, e.matchId);
      if e.eventId in processed {
        return if existing.None? then Stop(Err(ProcessedButMissing)) else Stop(Ok(existing.value));
      }
      if existing.Some? && !IsRetryableFailedOpen(cases[existing.value]) {
        return Register(existing.value);
      }
      var id: CaseId, c: Case;
      if existing.None? {
        id, c := |cases|, Case(e.matchId, e.lost, e.found, OPEN, e.decidedBy, None);
      } else {
        id, c := existing.value, cases[existing.value].(status := OPEN, reason := None);
      }
      if HasOtherActiveCase(cases, c.found, id) {
        return Stop(Err(FoundItemBusy));
      }
      if !ActiveIndexHolds(PutCase(cases, id, c)) {
        return Stop(Err(ActiveCaseConflict));
      }
      cases := PutCase(cases, id, c);
      plan := RecoveryCases.Call(id, c);
    }

    /** The case is in the session as OPEN and its open step is STARTED; nothing else is pending. */
    predicate IsOpening(at: nat, id: CaseId, c: Case)
      reads this
    {
      && id <= |db.cases| && cases == PutCase(db.cases, id, c)
      && at == |db.steps| && steps == db.steps + [SagaStep(id, OpenStep, STARTED)]
      && events == db.events && outbox == db.outbox && processed == db.processed
    }

    /** The request failed: the case is cancelled with the open-failure reason, and committed. */
    method AbandonOpen(at: nat, id: CaseId, c: Case, message: string)
      requires IsOpening(at, id, c) && ActiveIndexHolds(db.cases)
      modifies this
      ensures IsClean()
      ensures db == OpenFailed(old(db), id, c, message)
    {
      SettleSagaStep(at, StepStatus.FAILED);
      assert steps == db.steps + [SagaStep(id, OpenStep, StepStatus.FAILED)];
      cases := cases[id := cases[id].(status := CaseStatus.CANCELLED, reason := Some(FailureReason(message)))];
      assert cases == PutCase(db.cases, id, cases[id]);
      InactiveCaseFits(db.cases, id, cases[id]);
      var ok := Commit();
    }

    /** The request was accepted: the case is in progress, unless the commit is refused. */
    method FinishOpen(at: nat, id: CaseId, c: Case, e: AcceptedEnvelope) returns (ok: bool)
      requires IsOpening(at, id, c)
      modifies this
      ensures IsClean()
      ensures var after := Opened(old(db), e, id, c);
        ok == ActiveIndexHolds(after.cases) && db == if ok then after else old(db)
    {
      SettleSagaStep(at, SUCCEEDED);
      assert steps == db.steps + [SagaStep(id, OpenStep, SUCCEEDED)];
      cases := cases[id := cases[id].(status := IN_PROGRESS)];
      assert cases == PutCase(db.cases, id, cases[id]);
      RecordCaseEvent(id, RecoveryCaseOpened, Some(e.eventId));
      processed := processed + {e.eventId};
      ok := Commit();
    }

    method ConsumeMatchAccepted(e: AcceptedEnvelope, net: Network) returns (r: Result<CaseId, RecoveryError>)
      requires IsClean() && remote.IsClean() && ActiveIndexHolds(db.cases)
      modifies this, remote
      ensures IsClean() && remote.IsClean()
      ensures (Joint(), r) == Consume(old(Joint()), e, net)
    {
      var plan := PrepareOpen(e);
      match plan
      case Stop(outcome) =>
        r := outcome;
      case Register(id) =>
        processed := processed + {e.eventId};
        var ok := Commit();
        r := Ok(id);
      case Call(id, c) =>
        var step := StartSagaStep(id, OpenStep);
        var reply := Call([c.lost, c.found], IN_RECOVERY, Items.InternalOpen, net);
        if reply.Refused? {
          AbandonOpen(step, id, c, reply.message);
          return Err(ItemServiceFailure(reply.message));
        }
        var ok := FinishOpen(step, id, c, e);
        r := if ok then Ok(id) else Err(ActiveCaseConflict);
    }

    method CancelRecoveryCase(id: CaseId, reason: Option<string>, target: CancelTarget, net: Network)
      returns (r: Result<CaseId, RecoveryError>)
      requires IsClean() && remote.IsClean() && ActiveIndexHolds(db.cases)
      modifies this, remote
      ensures IsClean() && remote.IsClean()
      ensures (Joint(), r) == Cancel(old(Joint()), id, reason, target, net)
    {
      var refusal := CancelRefusal(db, id);
      if refusal.Some? {
        return Err(refusal.value);
      }
      var step := StartSagaStep(id, CancelStep);
      var reply := Call([cases[id].lost, cases[id].found], target, Items.InternalCancel, net);
      if reply.Refused? {
        SettleSagaStep(step, StepStatus.FAILED);
        assert steps == db.steps + [SagaStep(id, CancelStep, StepStatus.FAILED)];
        var ok := Commit();
        return Err(ItemServiceFailure(reply.message));
      }
      SettleSagaStep(step, SUCCEEDED);
      assert steps == db.steps + [SagaStep(id, CancelStep, SUCCEEDED)];
      cases := cases[id := cases[id].(status := CaseStatus.CANCELLED, reason := Some(ReasonOrDefault(reason)))];
      InactiveCaseFits(db.cases, id, cases[id]);
      RecordCaseEvent(id, RecoveryCaseCancelled, None);
      var ok := Commit();
      r := Ok(id);
    }

    method CompleteRecoveryCase(id: CaseId, net: Network) returns (r: Result<CaseId, RecoveryError>)
      requires IsClean() && remote.IsClean() && ActiveIndexHolds(db.cases)
      modifies this, remote
      ensures IsClean() && remote.IsClean()
      ensures (Joint(), r) == Complete(old(Joint()), id, net)
    {
      var refusal := CompleteRefusal(db, id);
      if refusal.Some? {
        return Err(refusal.value);
      }
      var step := StartSagaStep(id, CompleteStep);
      var reply := Call([cases[id].lost, cases[id].found], RECOVERED, Items.InternalComplete, net);
      if reply.Refused? {
        SettleSagaStep(step, StepStatus.FAILED);
        assert steps == db.steps + [SagaStep(id, CompleteStep, StepStatus.FAILED)];
        var ok := Commit();
        return Err(ItemServiceFailure(reply.message));
      }
      SettleSagaStep(step, SUCCEEDED);
      assert steps == db.steps + [SagaStep(id, CompleteStep, SUCCEEDED)];
      cases := cases[id := cases[id].(status := COMPLETED)];
      InactiveCaseFits(db.cases, id, cases[id]);
      RecordCaseEvent(id, RecoveryCaseCompleted, None);
      var ok := Commit();
      r := Ok(id);
    }
  }

  lemma InactiveCaseFits(cases: seq<Case>, id: CaseId, c: Case)
    requires ActiveIndexHolds(cases) && id <= |cases| && !IsActive(c)
    ensures ActiveIndexHolds(PutCase(cases, id, c))
  {
  }
}
