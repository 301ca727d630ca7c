/** What the recovery-case-service stores, and what each of its saga transactions does to it, given
    the item-service's reply. */
module RecoveryCases {
  import opened Domain

  datatype CaseStatus = OPEN | IN_PROGRESS | CANCELLED | COMPLETED

  // A case's id is its position in the table: rows are inserted, never deleted.
  type CaseId = nat
  type MatchId = nat

  datatype Case = Case(
    matchId: MatchId,
    lost: ItemId,
    found: ItemId,
    status: CaseStatus,
    openedBy: Option<UserId>,
    reason: Option<string>)

  datatype StepName = OpenStep | CancelStep | CompleteStep

  datatype StepStatus = STARTED | SUCCEEDED | FAILED

  datatype SagaStep = SagaStep(caseId: CaseId, name: StepName, status: StepStatus)

  datatype CaseEventType = RecoveryCaseOpened | RecoveryCaseCancelled | RecoveryCaseCompleted

  datatype CaseEvent = CaseEvent(caseId: CaseId, kind: CaseEventType, payload: Case)

  /** The broker message enqueued with a case event. */
  datatype CaseMessage = CaseMessage(
    aggregateId: CaseId,
    kind: CaseEventType,
    payload: Case,
    causation: Option<EventId>)

  datatype RecoveryStore = RecoveryStore(
    cases: seq<Case>,
    steps: seq<SagaStep>,
    events: seq<CaseEvent>,
    outbox: seq<CaseMessage>,
    processed: set<EventId>)

  const NO_CASES := RecoveryStore([], [], [], [], {})

  datatype RecoveryError =
    | UnsupportedEvent
    | ProcessedButMissing
    | FoundItemBusy
    | CaseNotFound
    | AlreadyCancelled
    | AlreadyCompleted
    | NotActive
    | NotInProgress
    | ItemServiceFailure(message: string)
    | ActiveCaseConflict

  /** A match event; only MatchAccepted is supported. */
  datatype AcceptedEnvelope = AcceptedEnvelope(
    eventId: EventId,
    isMatchAccepted: bool,
    matchId: MatchId,
    lost: ItemId,
    found: ItemId,
    decidedBy: Option<UserId>)

  /** The item-service's answer to a request. */
  datatype Reply = Accepted | Refused(message: string)

  const OPEN_FAILURE_PREFIX := "OPEN_FAILED:"
  const DEFAULT_CANCEL_REASON := "Recovery case cancelled"

  // ---- Queries ----

  predicate IsActive(c: Case) {
    c.status.OPEN? || c.status.IN_PROGRESS?
  }

  predicate HasOpenFailurePrefix(reason: string) {
    OPEN_FAILURE_PREFIX <= reason
  }

  predicate IsRetryableFailedOpen(c: Case) {
    c.status.CANCELLED? && c.reason.Some? && HasOpenFailurePrefix(c.reason.value)
  }

  /** The first case of a match; the match id is unique. */
  function CaseOfMatch(cases: seq<Case>, matchId: MatchId): (id: Option<CaseId>)
    ensures id.Some? ==> id.value < |cases| && cases[id.value].matchId == matchId
    ensures id.None? ==> forall i :: 0 <= i < |cases| ==> cases[i].matchId != matchId
  {
    if cases == [] then None
    else
      var last: CaseId := |cases| - 1;
      var earlier := CaseOfMatch(cases[..last], matchId);
      if earlier.Some? then earlier
      else if cases[last].matchId == matchId then Some(last)
      else None
  }

  /** Whether a case other than `except` is active for the found item. */
  predicate HasOtherActiveCase(cases: seq<Case>, found: ItemId, except: CaseId) {
    exists i :: 0 <= i < |cases| && i != except && cases[i].found == found && IsActive(cases[i])
  }

  /** The partial unique index: one active case per found item. */
  predicate ActiveIndexHolds(cases: seq<Case>) {
    forall i, j :: 0 <= i < j < |cases| && IsActive(cases[i]) && IsActive(cases[j]) ==> cases[i].found != cases[j].found
  }

  // ---- Opening a case ----

  datatype OpenPlan =
    | Stop(outcome: Result<CaseId, RecoveryError>)
    | Register(id: CaseId)
    | Call(id: CaseId, activated: Case)

  /** What a delivery leads to before the item-service is called: nothing, registering the event for
      a case that is already settled, or a call for a new or retried case, which is flushed as OPEN
      and so checked against the index. */
  function PlanOpen(s: RecoveryStore, e: AcceptedEnvelope): OpenPlan {
    if !e.isMatchAccepted then Stop(Err(UnsupportedEvent))
    else
      var existing := CaseOfMatch(s.cases, e.matchId);
      if e.eventId in s.processed then
        if existing.None? then Stop(Err(ProcessedButMissing)) else Stop(Ok(existing.value))
      else if existing.Some? && !IsRetryableFailedOpen(s.cases[existing.value]) then Register(existing.value)
      else
        var id := if existing.Some? then existing.value else |s.cases|;
        var c := if existing.Some? then s.cases[id].(status := OPEN, reason := None)
                 else Case(e.matchId, e.lost, e.found, OPEN, e.decidedBy, None);
        if HasOtherActiveCase(s.cases, c.found, id) then Stop(Err(FoundItemBusy))
        else if !ActiveIndexHolds(PutCase(s.cases, id, c)) then Stop(Err(ActiveCaseConflict))
        else Call(id, c)
  }

  /** Inserts or overwrites a case. */
  function PutCase(cases: seq<Case>, id: CaseId, c: Case): (cases': seq<Case>)
    requires id <= |cases|
    ensures id < |cases'|
  {
    if id == |cases| then cases + [c] else cases[id := c]
  }

  function LogStep(s: RecoveryStore, id: CaseId, name: StepName, status: StepStatus): RecoveryStore {
    s.(steps := s.steps + [SagaStep(id, name, status)])
  }

  function RecordEvent(s: RecoveryStore, id: CaseId, kind: CaseEventType, causation: Option<EventId>): RecoveryStore
    requires id < |s.cases|
  {
    s.(events := s.events + [CaseEvent(id, kind, s.cases[id])],
       outbox := s.outbox + [CaseMessage(id, kind, s.cases[id], causation)])
  }

  function FailureReason(message: string): string {
    OPEN_FAILURE_PREFIX + " " + message
  }

  /** The committed state after an accepted call: the case in progress, one succeeded step, one event. */
  function Opened(s: RecoveryStore, e: AcceptedEnvelope, id: CaseId, c: Case): RecoveryStore
    requires id <= |s.cases|
  {
    var s1 := LogStep(s.(cases := PutCase(s.cases, id, c.(status := IN_PROGRESS))), id, OpenStep, SUCCEEDED);
    RecordEvent(s1, id, RecoveryCaseOpened, Some(e.eventId)).(processed := s.processed + {e.eventId})
  }

  /** The committed state after a refused call: the case cancelled and one failed step. The event is
      not registered. */
  function OpenFailed(s: RecoveryStore, id: CaseId, c: Case, message: string): RecoveryStore
    requires id <= |s.cases|
  {
    var failed := c.(status := CaseStatus.CANCELLED, reason := Some(FailureReason(message)));
    LogStep(s.(cases := PutCase(s.cases, id, failed)), id, OpenStep, FAILED)
  }

  /** The transaction. `reply` is the item-service's answer, if it was called. */
  function ConsumeAccepted(s: RecoveryStore, e: AcceptedEnvelope, reply: Reply):
    (RecoveryStore, Result<CaseId, RecoveryError>)
  {
    match PlanOpen(s, e)
    case Stop(outcome) => (s, outcome)
    case Register(id) => (s.(processed := s.processed + {e.eventId}), Ok(id))
    case Call(id, c) =>
      match reply
      case Refused(message) => (OpenFailed(s, id, c, message), Err(ItemServiceFailure(message)))
      case Accepted =>
        var s' := Opened(s, e, id, c);
        if ActiveIndexHolds(s'.cases) then (s', Ok(id)) else (s, Err(ActiveCaseConflict))
  }

  // ---- Cancelling and completing ----

  function CancelRefusal(s: RecoveryStore, id: CaseId): Option<RecoveryError> {
    if id >= |s.cases| then Some(CaseNotFound)
    else
      match s.cases[id].status
      case CANCELLED => Some(AlreadyCancelled)
      case COMPLETED => Some(AlreadyCompleted)
      case OPEN => None
      case IN_PROGRESS => None
  }

  function CompleteRefusal(s: RecoveryStore, id: CaseId): Option<RecoveryError> {
    if id >= |s.cases| then Some(CaseNotFound)
    else
      match s.cases[id].status
      case CANCELLED => Some(AlreadyCancelled)
      case COMPLETED => Some(AlreadyCompleted)
      case OPEN => Some(NotInProgress)
      case IN_PROGRESS => None
  }

  /** `payload.reason or default`: an empty reason counts as none. */
  function ReasonOrDefault(reason: Option<string>): string {
    if reason.Some? && reason.value != "" then reason.value else DEFAULT_CANCEL_REASON
  }

  function CancelledBy(s: RecoveryStore, id: CaseId, reason: Option<string>): RecoveryStore
    requires id < |s.cases|
  {
    var c := s.cases[id].(status := CaseStatus.CANCELLED, reason := Some(ReasonOrDefault(reason)));
    RecordEvent(LogStep(s.(cases := s.cases[id := c]), id, CancelStep, SUCCEEDED), id, RecoveryCaseCancelled, None)
  }

  function CompletedBy(s: RecoveryStore, id: CaseId): RecoveryStore
    requires id < |s.cases|
  {
    var c := s.cases[id].(status := COMPLETED);
    RecordEvent(LogStep(s.(cases := s.cases[id := c]), id, CompleteStep, SUCCEEDED), id, RecoveryCaseCompleted, None)
  }

  function CancelCase(s: RecoveryStore, id: CaseId, reason: Option<string>, reply: Reply):
    (RecoveryStore, Result<CaseId, RecoveryError>)
  {
    var refusal := CancelRefusal(s, id);
    if refusal.Some? then (s, Err(refusal.value))
    else
      match reply
      case Refused(message) => (LogStep(s, id, CancelStep, FAILED), Err(ItemServiceFailure(message)))
      case Accepted => (CancelledBy(s, id, reason), Ok(id))
  }

  function CompleteCase(s: RecoveryStore, id: CaseId, reply: Reply): (RecoveryStore, Result<CaseId, RecoveryError>) {
    var refusal := CompleteRefusal(s, id);
    if refusal.Some? then (s, Err(refusal.value))
    else
      match reply
      case Refused(message) => (LogStep(s, id, CompleteStep, FAILED), Err(ItemServiceFailure(message)))
      case Accepted => (CompletedBy(s, id), Ok(id))
  }

  // ---- Runs, with whatever the item-service answers ----

  datatype SagaAction =
    | Deliver(event: AcceptedEnvelope, reply: Reply)
    | CancelBy(id: CaseId, reason: Option<string>, reply: Reply)
    | CompleteBy(id: CaseId, reply: Reply)

  function Act(s: RecoveryStore, a: SagaAction): RecoveryStore {
    match a
    case Deliver(e, reply) => ConsumeAccepted(s, e, reply).0
    case CancelBy(id, reason, reply) => CancelCase(s, id, reason, reply).0
    case CompleteBy(id, reply) => CompleteCase(s, id, reply).0
  }

  function ActAll(s: RecoveryStore, run: seq<SagaAction>): RecoveryStore {
    if run == [] then s else Act(ActAll(s, run[..|run| - 1]), run[|run| - 1])
  }
}
