/** What a saga operation brings about, in terms of the cases, logs and items it leaves. */
module SagaOutcomes {
  import opened Domain
  import Items = ItemAggregate
  import ItemHistory
  import ItemBatches
  import opened ItemOutcomes
  import opened RecoveryCases
  import opened RecoverySaga
  import opened JointSaga
  import opened Exclusivity

  // ---- Cases and logs ----

  /** The case an opening leaves in progress: a new one of the accepted match, opened by who accepted it,
      or the retried one, its failure reason cleared. */
  function OpenedCase(s: RecoveryStore, e: AcceptedEnvelope): Case {
    var existing := CaseOfMatch(s.cases, e.matchId);
    if existing.None? then Case(e.matchId, e.lost, e.found, IN_PROGRESS, e.decidedBy, None)
    else
      var c := s.cases[existing.value];
      Case(c.matchId, c.lost, c.found, IN_PROGRESS, c.openedBy, None)
  }

  function OpenedId(s: RecoveryStore, e: AcceptedEnvelope): CaseId {
    var existing := CaseOfMatch(s.cases, e.matchId);
    if existing.None? then |s.cases| else existing.value
  }

  /** The case is stored, and everything else about cases is as it was. */
  predicate StoresCase(s: RecoveryStore, s': RecoveryStore, id: CaseId, c: Case) {
    && |s'.cases| == (if id == |s.cases| then id + 1 else |s.cases|)
    && id < |s'.cases| && s'.cases[id] == c
    && forall i :: 0 <= i < |s.cases| && i != id ==> s'.cases[i] == s.cases[i]
  }

  /** A succeeded step, and one case event with its message, both carrying the case. */
  predicate Reports(s: RecoveryStore, s': RecoveryStore, step: SagaStep, kind: CaseEventType, c: Case,
                    causation: Option<EventId>)
  {
    && s'.steps == s.steps + [step] && step.status == SUCCEEDED
    && s'.events == s.events + [CaseEvent(step.caseId, kind, c)]
    && s'.outbox == s.outbox + [CaseMessage(step.caseId, kind, c, causation)]
  }

  /** A failed step, and nothing reported or registered. */
  predicate RecordsFailure(s: RecoveryStore, s': RecoveryStore, step: SagaStep) {
    && s'.steps == s.steps + [step] && step.status == StepStatus.FAILED
    && s'.events == s.events && s'.outbox == s.outbox && s'.processed == s.processed
  }

  /** An opening that succeeds leaves the case in progress, reports it as caused by the delivery, and
      registers the delivery. */
  lemma OpenTakesEffect(s: RecoveryStore, e: AcceptedEnvelope, reply: Reply)
    requires AsksToOpen(s, e) && ConsumeAccepted(s, e, reply).1.Ok?
    ensures var (s', r) := ConsumeAccepted(s, e, reply); var id, c := OpenedId(s, e), OpenedCase(s, e);
      && reply == Accepted && r == Ok(id)
      && StoresCase(s, s', id, c)
      && Reports(s, s', SagaStep(id, OpenStep, SUCCEEDED), RecoveryCaseOpened, c, Some(e.eventId))
      && s'.processed == s.processed + {e.eventId}
  {
  }

  /** One that the item-service refuses leaves the case cancelled, with the reason that marks a failed
      open, and the delivery unregistered. */
  lemma OpenFailureIsRecorded(s: RecoveryStore, e: AcceptedEnvelope, message: string)
    requires AsksToOpen(s, e) && ConsumeAccepted(s, e, Refused(message)).1 == Err(ItemServiceFailure(message))
    ensures var s' := ConsumeAccepted(s, e, Refused(message)).0; var id := OpenedId(s, e);
      && StoresCase(s, s', id, OpenedCase(s, e).(status := CaseStatus.CANCELLED,
                                                 reason := Some("OPEN_FAILED: " + message)))
      && RecordsFailure(s, s', SagaStep(id, OpenStep, StepStatus.FAILED))
  {
    assert OPEN_FAILURE_PREFIX + " " + message == "OPEN_FAILED: " + message;
  }

  /** MAIN: a recorded failure is retried: the next unregistered event for the match, the same one
      redelivered included, asks to open the same case for the same items. */
  lemma RecordedFailureIsRetried(s: RecoveryStore, e: AcceptedEnvelope, message: string, next: AcceptedEnvelope)
    requires SagaOk(s) && AsksToOpen(s, e)
    requires ConsumeAccepted(s, e, Refused(message)).1 == Err(ItemServiceFailure(message))
    requires next.isMatchAccepted && next.matchId == e.matchId && next.eventId !in s.processed
    ensures var s' := ConsumeAccepted(s, e, Refused(message)).0;
      && AsksToOpen(s', next)
      && OpenedId(s', next) == OpenedId(s, e) && OpenedCase(s', next) == OpenedCase(s, e)
  {
    var s' := ConsumeAccepted(s, e, Refused(message)).0;
    var id := OpenedId(s, e);
    OpenFailureIsRecorded(s, e, message);
    ActKeepsOk(s, Deliver(e, Refused(message)));
    assert s'.cases[id].matchId == e.matchId;
    assert "OPEN_FAILED: " + message == "OPEN_FAILED:" + (" " + message);
    assert CaseOfMatch(s'.cases, e.matchId) == Some(id);
  }

  /** The local guard: an opening is refused as busy exactly when another case of the found item is open
      or in progress. */
  lemma BusyMeans(s: RecoveryStore, e: AcceptedEnvelope, reply: Reply)
    requires ActiveIndexHolds(s.cases) && AsksToOpen(s, e)
    ensures ConsumeAccepted(s, e, reply).1 == Err(FoundItemBusy) <==>
      exists i: CaseId ::
        && i < |s.cases| && i != OpenedId(s, e) && s.cases[i].found == OpenedCase(s, e).found
        && (s.cases[i].status == OPEN || s.cases[i].status == IN_PROGRESS)
  {
    IndexNeverTrips(s, e, reply);
  }

  /** A cancellation that succeeds leaves the case cancelled with the user's reason, or the default one,
      and reports it. */
  lemma CancelTakesEffect(s: RecoveryStore, id: CaseId, reason: Option<string>, reply: Reply)
    requires CancelCase(s, id, reason, reply).1.Ok?
    ensures var (s', r) := CancelCase(s, id, reason, reply);
      && reply == Accepted && r == Ok(id) && id < |s.cases|
      && (s.cases[id].status == OPEN || s.cases[id].status == IN_PROGRESS)
      && var given := if reason.Some? && reason.value != "" then reason.value else "Recovery case cancelled";
         var c := s.cases[id].(status := CaseStatus.CANCELLED, reason := Some(given));
         && StoresCase(s, s', id, c)
         && Reports(s, s', SagaStep(id, CancelStep, SUCCEEDED), RecoveryCaseCancelled, c, None)
         && s'.processed == s.processed
  {
  }

  /** A completion that succeeds leaves the case completed, and reports it. */
  lemma CompleteTakesEffect(s: RecoveryStore, id: CaseId, reply: Reply)
    requires CompleteCase(s, id, reply).1.Ok?
    ensures var (s', r) := CompleteCase(s, id, reply);
      && reply == Accepted && r == Ok(id) && id < |s.cases| && s.cases[id].status == IN_PROGRESS
      && var c := s.cases[id].(status := COMPLETED);
         && StoresCase(s, s', id, c)
         && Reports(s, s', SagaStep(id, CompleteStep, SUCCEEDED), RecoveryCaseCompleted, c, None)
         && s'.processed == s.processed
  {
  }

  /** A request to close that the item-service refuses leaves the case as it was and one failed step. */
  lemma ClosingFailureIsRecorded(s: RecoveryStore, id: CaseId, reason: Option<string>, message: string)
    ensures CancelCase(s, id, reason, Refused(message)).1 == Err(ItemServiceFailure(message)) ==>
              var s' := CancelCase(s, id, reason, Refused(message)).0;
              s'.cases == s.cases && RecordsFailure(s, s', SagaStep(id, CancelStep, StepStatus.FAILED))
    ensures CompleteCase(s, id, Refused(message)).1 == Err(ItemServiceFailure(message)) ==>
              var s' := CompleteCase(s, id, Refused(message)).0;
              s'.cases == s.cases && RecordsFailure(s, s', SagaStep(id, CompleteStep, StepStatus.FAILED))
  {
  }

  /** Which requests to close are refused without asking the item-service, and why. */
  lemma ClosingRefusals(s: RecoveryStore, id: CaseId, reason: Option<string>, reply: Reply)
    ensures var r := CancelCase(s, id, reason, reply).1;
      && (r == Err(CaseNotFound) <==> id >= |s.cases|)
      && (r == Err(AlreadyCancelled) <==> id < |s.cases| && s.cases[id].status == CaseStatus.CANCELLED)
      && (r == Err(AlreadyCompleted) <==> id < |s.cases| && s.cases[id].status == COMPLETED)
    ensures var r := CompleteCase(s, id, reply).1;
      && (r == Err(CaseNotFound) <==> id >= |s.cases|)
      && (r == Err(AlreadyCancelled) <==> id < |s.cases| && s.cases[id].status == CaseStatus.CANCELLED)
      && (r == Err(AlreadyCompleted) <==> id < |s.cases| && s.cases[id].status == COMPLETED)
      && (r == Err(NotInProgress) <==> id < |s.cases| && s.cases[id].status == OPEN)
  {
  }

  // ---- Items ----

  lemma RemoteMoves(items: Items.ItemStore, ids: seq<ItemId>, target: ItemStatus, mode: Items.TransitionMode,
                    net: Network)
    requires ItemHistory.StoreOk(items) && Remote(items, ids, target, mode, net).1.Accepted?
    ensures MovedTo(items, Remote(items, ids, target, mode, net).0, ids, target)
  {
    BatchOutcome(items, ids, target, mode);
  }

  /** MAIN: an operation that succeeds has moved exactly the case's two items, by one version: to
      IN_RECOVERY when it opens, to the requested status when it cancels, to RECOVERED when it
      completes. */
  lemma OperationsMoveItems(j: JointState, e: AcceptedEnvelope, id: CaseId, reason: Option<string>,
                            target: CancelTarget, net: Network)
    requires ItemHistory.StoreOk(j.items)
    ensures AsksToOpen(j.saga, e) && Consume(j, e, net).1.Ok? ==>
              var c := OpenedCase(j.saga, e);
              MovedTo(j.items, Consume(j, e, net).0.items, [c.lost, c.found], IN_RECOVERY)
    ensures Cancel(j, id, reason, target, net).1.Ok? ==>
              && id < |j.saga.cases|
              && var c := j.saga.cases[id];
                 MovedTo(j.items, Cancel(j, id, reason, target, net).0.items, [c.lost, c.found], target)
    ensures Complete(j, id, net).1.Ok? ==>
              && id < |j.saga.cases|
              && var c := j.saga.cases[id];
                 MovedTo(j.items, Complete(j, id, net).0.items, [c.lost, c.found], RECOVERED)
  {
    if AsksToOpen(j.saga, e) && Consume(j, e, net).1.Ok? {
      var plan := PlanOpen(j.saga, e);
      RemoteMoves(j.items, ItemsOfCase(plan.activated), IN_RECOVERY, Items.InternalOpen, net);
    }
    if Cancel(j, id, reason, target, net).1.Ok? {
      RemoteMoves(j.items, ItemsOfCase(j.saga.cases[id]), target, Items.InternalCancel, net);
    }
    if Complete(j, id, net).1.Ok? {
      RemoteMoves(j.items, ItemsOfCase(j.saga.cases[id]), RECOVERED, Items.InternalComplete, net);
    }
  }

  /** A delivery that asks for no opening leaves every item and case alone; one of another event type is
      refused. */
  lemma OtherDeliveriesMoveNothing(j: JointState, e: AcceptedEnvelope, net: Network)
    requires !AsksToOpen(j.saga, e)
    ensures Consume(j, e, net).0.items == j.items && Consume(j, e, net).0.saga.cases == j.saga.cases
    ensures !e.isMatchAccepted ==> Consume(j, e, net) == (j, Err(UnsupportedEvent))
  {
  }

  // ---- Completed recoveries ----

  predicate IsDelivered(items: Items.ItemStore, x: ItemId) {
    x in items.items && (items.items[x].status == RECOVERED || items.items[x].status == CLOSED)
  }

  /** Both items of every completed case are RECOVERED, or CLOSED since. */
  ghost predicate CompletedAreDelivered(j: JointState) {
    forall id: CaseId :: id < |j.saga.cases| && j.saga.cases[id].status == COMPLETED ==>
      IsDelivered(j.items, j.saga.cases[id].lost) && IsDelivered(j.items, j.saga.cases[id].found)
  }

  lemma RemoteKeepsDelivered(items: Items.ItemStore, ids: seq<ItemId>, target: ItemStatus, mode: Items.TransitionMode,
                             net: Network, x: ItemId)
    requires IsDelivered(items, x) && mode != Items.Public
    ensures IsDelivered(Remote(items, ids, target, mode, net).0, x)
  {
    ItemBatches.BatchLeavesItem(items, ids, target, mode, x);
  }

  lemma NextKeepsDelivered(j: JointState, a: JointAction, x: ItemId)
    requires IsDelivered(j.items, x)
    ensures IsDelivered(Next(j, a).items, x)
  {
    match a
    case Create(_, _) =>
    case Update(_, _) =>
    case SetStatus(_, _) =>
    case MatchAccepted(e, net) =>
      var plan := PlanOpen(j.saga, e);
      if plan.Call? {
        RemoteKeepsDelivered(j.items, ItemsOfCase(plan.activated), IN_RECOVERY, Items.InternalOpen, net, x);
      }
    case CancelRequest(id, reason, target, net) =>
      if CancelRefusal(j.saga, id).None? {
        RemoteKeepsDelivered(j.items, ItemsOfCase(j.saga.cases[id]), target, Items.InternalCancel, net, x);
      }
    case CompleteRequest(id, net) =>
      if CompleteRefusal(j.saga, id).None? {
        RemoteKeepsDelivered(j.items, ItemsOfCase(j.saga.cases[id]), RECOVERED, Items.InternalComplete, net, x);
      }
  }

  /** A case completed by this step has its items RECOVERED by it. */
  lemma CompletedNow(j: JointState, a: JointAction, id: CaseId)
    requires SagaOk(j.saga) && id < |Next(j, a).saga.cases| && Next(j, a).saga.cases[id].status == COMPLETED
    requires !(id < |j.saga.cases| && j.saga.cases[id].status == COMPLETED)
    ensures a.CompleteRequest? && a.caseId == id && id < |j.saga.cases| && Complete(j, id, a.net).1.Ok?
    ensures var c := Next(j, a).saga.cases[id]; c.lost == j.saga.cases[id].lost && c.found == j.saga.cases[id].found
  {
    SagaHalfIsAct(j, a);
    var half := SagaHalf(j, a);
    if half.Some? {
      ActRealizesEffect(j.saga, half.value);
      if EffectOf(j.saga, half.value).Some? { EffectFacts(j.saga, half.value); }
    }
  }

  lemma CompletedIsDelivered(j: JointState, id: CaseId, net: Network, x: ItemId)
    requires id < |j.saga.cases| && Complete(j, id, net).1.Ok? && x in ItemsOfCase(j.saga.cases[id])
    ensures IsDelivered(Complete(j, id, net).0.items, x)
  {
    var ids := ItemsOfCase(j.saga.cases[id]);
    RemoteMeaning(j.items, ids, RECOVERED, Items.InternalComplete, net, x);
  }

  /** A completed case was completed before, on the same items. */
  lemma CompletedBefore(j: JointState, a: JointAction, id: CaseId)
    requires SagaOk(j.saga) && id < |j.saga.cases| && j.saga.cases[id].status == COMPLETED
    ensures id < |Next(j, a).saga.cases| && Next(j, a).saga.cases[id] == j.saga.cases[id]
  {
    SagaHalfIsAct(j, a);
    var half := SagaHalf(j, a);
    if half.Some? {
      ActRealizesEffect(j.saga, half.value);
      if EffectOf(j.saga, half.value).Some? { EffectFacts(j.saga, half.value); }
    }
  }

  lemma NextKeepsCompletedDelivered(j: JointState, a: JointAction)
    requires SagaOk(j.saga) && CompletedAreDelivered(j)
    ensures CompletedAreDelivered(Next(j, a))
  {
    var j' := Next(j, a);
    forall id: CaseId | id < |j'.saga.cases| && j'.saga.cases[id].status == COMPLETED
      ensures IsDelivered(j'.items, j'.saga.cases[id].lost) && IsDelivered(j'.items, j'.saga.cases[id].found)
    {
      if id < |j.saga.cases| && j.saga.cases[id].status == COMPLETED {
        CompletedBefore(j, a, id);
        NextKeepsDelivered(j, a, j.saga.cases[id].lost);
        NextKeepsDelivered(j, a, j.saga.cases[id].found);
      } else {
        CompletedNow(j, a, id);
        CompletedIsDelivered(j, id, a.net, j.saga.cases[id].lost);
        CompletedIsDelivered(j, id, a.net, j.saga.cases[id].found);
      }
    }
  }

  /** MAIN: over every run on any network, lost replies included, both items of a completed case are
      RECOVERED or CLOSED. */
  lemma {:induction false} CompletedItemsAreDelivered(run: seq<JointAction>)
    ensures SagaOk(Run(START, run).saga)
    ensures CompletedAreDelivered(Run(START, run))
  {
    if run == [] {
      RunsKeepSaga([]);
    } else {
      var before := run[..|run| - 1];
      CompletedItemsAreDelivered(before);
      SagaStaysOk(Run(START, before), run[|run| - 1]);
      NextKeepsCompletedDelivered(Run(START, before), run[|run| - 1]);
    }
  }
}
