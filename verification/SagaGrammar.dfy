/** The shape of every case's saga log, and what follows from it: one successful open per match, and
    closed cases that stay closed. Failed opens are recognised by their reason's prefix, which users
    may also write: the first sections suppose that they do not, the later ones say exactly what
    happens when one does, and that it does not matter when each match has one event. */
module SagaGrammar {
  import opened Domain
  import opened Seqs
  import opened RecoveryCases
  import opened RecoverySaga

  predicate IsFailedOpen(step: SagaStep) {
    step.name.OpenStep? && step.status.FAILED?
  }

  predicate IsOpened(step: SagaStep) {
    step.name.OpenStep? && step.status.SUCCEEDED?
  }

  predicate IsFailedClose(step: SagaStep) {
    !step.name.OpenStep? && step.status.FAILED?
  }

  predicate IsClosed(step: SagaStep) {
    !step.name.OpenStep? && step.status.SUCCEEDED?
  }

  // ---- The grammar: (open FAILED)* (open SUCCEEDED (close FAILED)* (close SUCCEEDED)?)? ----

  ghost predicate OnlyFailedOpens(steps: seq<SagaStep>) {
    forall k :: 0 <= k < |steps| ==> IsFailedOpen(steps[k])
  }

  /** Opened at position f, and since then only failed attempts to close. */
  ghost predicate OpenedAt(steps: seq<SagaStep>, f: nat) {
    && f < |steps|
    && (forall k :: 0 <= k < f ==> IsFailedOpen(steps[k]))
    && IsOpened(steps[f])
    && (forall k :: f < k < |steps| ==> IsFailedClose(steps[k]))
  }

  ghost predicate ClosedAfter(steps: seq<SagaStep>, f: nat) {
    steps != [] && OpenedAt(steps[..|steps| - 1], f) && IsClosed(steps[|steps| - 1])
  }

  ghost predicate InGrammar(steps: seq<SagaStep>) {
    OnlyFailedOpens(steps) || (exists f :: OpenedAt(steps, f)) || (exists f :: ClosedAfter(steps, f))
  }

  // ---- A phase machine for it ----

  datatype Phase = NotOpened | Running | Closed | Broken

  function Advance(phase: Phase, step: SagaStep): Phase {
    match phase
    case NotOpened => if IsFailedOpen(step) then NotOpened else if IsOpened(step) then Running else Broken
    case Running => if IsFailedClose(step) then Running else if IsClosed(step) then Closed else Broken
    case Closed => Broken
    case Broken => Broken
  }

  function PhaseOf(steps: seq<SagaStep>): Phase {
    if steps == [] then NotOpened else Advance(PhaseOf(steps[..|steps| - 1]), steps[|steps| - 1])
  }

  lemma {:induction false} PhaseMeaning(steps: seq<SagaStep>)
    ensures PhaseOf(steps).NotOpened? ==> OnlyFailedOpens(steps)
    ensures PhaseOf(steps).Running? ==> exists f :: OpenedAt(steps, f)
    ensures PhaseOf(steps).Closed? ==> exists f :: ClosedAfter(steps, f)
  {
    if steps != [] {
      var before, last := steps[..|steps| - 1], steps[|steps| - 1];
      PhaseMeaning(before);
      if PhaseOf(steps).Running? {
        if PhaseOf(before).NotOpened? {
          assert OpenedAt(steps, |before|);
        } else {
          var f :| OpenedAt(before, f);
          assert OpenedAt(steps, f);
        }
      } else if PhaseOf(steps).Closed? {
        var f :| OpenedAt(before, f);
        assert ClosedAfter(steps, f);
      }
    }
  }

  lemma {:induction false} GrammarPhase(steps: seq<SagaStep>)
    ensures OnlyFailedOpens(steps) ==> PhaseOf(steps).NotOpened?
    ensures forall f :: OpenedAt(steps, f) ==> PhaseOf(steps).Running?
    ensures forall f :: ClosedAfter(steps, f) ==> PhaseOf(steps).Closed?
  {
    if steps != [] {
      var before := steps[..|steps| - 1];
      GrammarPhase(before);
      forall f: nat | OpenedAt(steps, f) ensures PhaseOf(steps).Running? {
        if f < |before| { assert OpenedAt(before, f); }
      }
    }
  }

  /** The phase machine accepts exactly the logs of the grammar. */
  lemma PhaseMachineIsGrammar(steps: seq<SagaStep>)
    ensures !PhaseOf(steps).Broken? <==> InGrammar(steps)
  {
    PhaseMeaning(steps);
    GrammarPhase(steps);
  }

  // ---- Runs without prefixed reasons ----

  /** The phase a case row stands for. */
  function PhaseOfCase(c: Case): Phase {
    match c.status
    case OPEN => Broken
    case IN_PROGRESS => Running
    case COMPLETED => Closed
    case CANCELLED => if IsRetryableFailedOpen(c) then NotOpened else Closed
  }

  predicate PlainReason(a: SagaAction) {
    a.CancelBy? ==> !HasOpenFailurePrefix(ReasonOrDefault(a.reason))
  }

  predicate PlainReasons(run: seq<SagaAction>) {
    forall k :: 0 <= k < |run| ==> PlainReason(run[k])
  }

  ghost predicate PhasesFit(s: RecoveryStore) {
    forall id: CaseId :: id < |s.cases| ==> PhaseOf(StepsOf(s, id)) == PhaseOfCase(s.cases[id])
  }

  lemma PhaseAppend(steps: seq<SagaStep>, step: SagaStep)
    ensures PhaseOf(steps + [step]) == Advance(PhaseOf(steps), step)
  {
    assert (steps + [step])[..|steps|] == steps;
  }

  lemma EffectAdvancesPhase(s: RecoveryStore, a: SagaAction)
    requires SagaOk(s) && PlainReason(a) && EffectOf(s, a).Some?
    ensures var f := EffectOf(s, a).value;
      PhaseOfCase(f.after) == Advance(if f.id < |s.cases| then PhaseOfCase(s.cases[f.id]) else NotOpened, f.step)
  {
    EffectFacts(s, a);
  }

  lemma ActKeepsPhases(s: RecoveryStore, a: SagaAction)
    requires SagaOk(s) && PhasesFit(s) && PlainReason(a)
    ensures PhasesFit(Act(s, a))
  {
    var s' := Act(s, a);
    ActRealizesEffect(s, a);
    if EffectOf(s, a).Some? {
      var f := EffectOf(s, a).value;
      EffectFacts(s, a);
      EffectAdvancesPhase(s, a);
      forall id: CaseId | id < |s'.cases| ensures PhaseOf(StepsOf(s', id)) == PhaseOfCase(s'.cases[id]) {
        FilterAppend(s.steps, f.step, StepOfCase(id));
        assert LogOk(s, id);
        if id == f.id { PhaseAppend(StepsOf(s, id), f.step); }
      }
    }
  }

  lemma {:induction false} RunsKeepPhases(run: seq<SagaAction>)
    requires PlainReasons(run)
    ensures PhasesFit(ActAll(NO_CASES, run))
  {
    if run != [] {
      var before := run[..|run| - 1];
      RunsKeepPhases(before);
      RunsKeepSaga(before);
      ActKeepsPhases(ActAll(NO_CASES, before), run[|run| - 1]);
    }
  }

  function OpensSucceeded(steps: seq<SagaStep>): nat {
    if steps == [] then 0
    else OpensSucceeded(steps[..|steps| - 1]) + (if IsOpened(steps[|steps| - 1]) then 1 else 0)
  }

  lemma {:induction false} PhaseCountsOpens(steps: seq<SagaStep>)
    requires !PhaseOf(steps).Broken?
    ensures OpensSucceeded(steps) == if PhaseOf(steps).NotOpened? then 0 else 1
  {
    if steps != [] {
      PhaseCountsOpens(steps[..|steps| - 1]);
    }
  }

  /** MAIN: over every run of deliveries (duplicates, several events for one match), cancellations and
      completions, every case's log is in the grammar, and each match has at most one case, opened
      successfully at most once. */
  lemma GrammarHolds(run: seq<SagaAction>, id: CaseId)
    requires PlainReasons(run) && id < |ActAll(NO_CASES, run).cases|
    ensures var s := ActAll(NO_CASES, run);
      && InGrammar(StepsOf(s, id))
      && OpensSucceeded(StepsOf(s, id)) <= 1
      && OneCasePerMatch(s.cases)
  {
    RunsKeepSaga(run);
    RunsKeepPhases(run);
    PhaseMachineIsGrammar(StepsOf(ActAll(NO_CASES, run), id));
    PhaseCountsOpens(StepsOf(ActAll(NO_CASES, run), id));
  }

  // ---- Redelivery ----

  lemma CaseOfMatchIs(cases: seq<Case>, id: CaseId)
    requires OneCasePerMatch(cases) && id < |cases|
    ensures CaseOfMatch(cases, cases[id].matchId) == Some(id)
  {
  }

  /** The event was registered, and its match has this case. */
  ghost predicate Consumed(s: RecoveryStore, e: AcceptedEnvelope, id: CaseId) {
    && SagaOk(s) && e.isMatchAccepted && e.eventId in s.processed
    && id < |s.cases| && s.cases[id].matchId == e.matchId
  }

  lemma ActKeepsConsumed(s: RecoveryStore, a: SagaAction, e: AcceptedEnvelope, id: CaseId)
    requires Consumed(s, e, id)
    ensures Consumed(Act(s, a), e, id)
  {
    ActKeepsOk(s, a);
    ActRealizesEffect(s, a);
    if EffectOf(s, a).Some? { EffectFacts(s, a); }
  }

  lemma {:induction false} ActAllKeepsConsumed(s: RecoveryStore, later: seq<SagaAction>, e: AcceptedEnvelope,
                                               id: CaseId)
    requires Consumed(s, e, id)
    ensures Consumed(ActAll(s, later), e, id)
  {
    if later != [] {
      ActAllKeepsConsumed(s, later[..|later| - 1], e, id);
      ActKeepsConsumed(ActAll(s, later[..|later| - 1]), later[|later| - 1], e, id);
    }
  }

  /** MAIN: once an event was consumed, redelivering it changes nothing and returns the same case, at
      any later time: after any further deliveries, cancellations and completions. */
  lemma RedeliveryIsIdle(s: RecoveryStore, e: AcceptedEnvelope, reply: Reply, later: seq<SagaAction>, again: Reply)
    requires SagaOk(s) && ConsumeAccepted(s, e, reply).1.Ok?
    ensures var (s', r) := ConsumeAccepted(s, e, reply); var s2 := ActAll(s', later);
      ConsumeAccepted(s2, e, again) == (s2, r)
  {
    var (s', r) := ConsumeAccepted(s, e, reply);
    ActKeepsOk(s, Deliver(e, reply));
    ActAllKeepsConsumed(s', later, e, r.value);
    CaseOfMatchIs(ActAll(s', later).cases, r.value);
  }

  predicate OnlyDeliveries(run: seq<SagaAction>) {
    forall k :: 0 <= k < |run| ==> run[k].Deliver?
  }

  /** The case is in progress or settled, and it is its match's case. */
  ghost predicate NeedsNoOpening(s: RecoveryStore, id: CaseId) {
    SagaOk(s) && id < |s.cases| && !IsRetryableFailedOpen(s.cases[id])
  }

  lemma DeliveryLeavesCase(s: RecoveryStore, e: AcceptedEnvelope, reply: Reply, id: CaseId)
    requires NeedsNoOpening(s, id)
    ensures var s' := Act(s, Deliver(e, reply));
      && NeedsNoOpening(s', id)
      && s'.cases[id] == s.cases[id] && StepsOf(s', id) == StepsOf(s, id) && EventsOf(s', id) == EventsOf(s, id)
  {
    var a := Deliver(e, reply);
    ActKeepsOk(s, a);
    ActRealizesEffect(s, a);
    if EffectOf(s, a).Some? {
      var f := EffectOf(s, a).value;
      EffectFacts(s, a);
      FilterAppend(s.steps, f.step, StepOfCase(id));
      if f.step.status.SUCCEEDED? {
        FilterAppend(s.events, CaseEvent(f.id, EventOfStep(f.step.name), f.after), EventOfCase(id));
      }
    }
  }

  /** MAIN: once a match's case is in progress or settled, no sequence of deliveries changes that case,
      its log or its events, or gives the match another case, whatever their ids and matches are and
      whatever the item-service answers. */
  lemma {:induction false} DeliveriesLeaveCase(s: RecoveryStore, later: seq<SagaAction>, id: CaseId)
    requires NeedsNoOpening(s, id) && OnlyDeliveries(later)
    ensures var s' := ActAll(s, later);
      && NeedsNoOpening(s', id)
      && s'.cases[id] == s.cases[id] && StepsOf(s', id) == StepsOf(s, id) && EventsOf(s', id) == EventsOf(s, id)
      && CaseOfMatch(s'.cases, s.cases[id].matchId) == Some(id)
  {
    if later != [] {
      var before, a := later[..|later| - 1], later[|later| - 1];
      DeliveriesLeaveCase(s, before, id);
      DeliveryLeavesCase(ActAll(s, before), a.event, a.reply, id);
    }
    CaseOfMatchIs(ActAll(s, later).cases, id);
  }

  // ---- Closed cases ----

  predicate IsSettled(c: Case) {
    c.status.COMPLETED? || (c.status.CANCELLED? && !IsRetryableFailedOpen(c))
  }

  lemma ActKeepsSettled(s: RecoveryStore, a: SagaAction, id: CaseId)
    requires SagaOk(s) && id < |s.cases| && IsSettled(s.cases[id])
    ensures var s' := Act(s, a);
      id < |s'.cases| && s'.cases[id] == s.cases[id] && StepsOf(s', id) == StepsOf(s, id)
  {
    ActRealizesEffect(s, a);
    if EffectOf(s, a).Some? {
      EffectFacts(s, a);
      FilterAppend(s.steps, EffectOf(s, a).value.step, StepOfCase(id));
    }
  }

  /** MAIN: a completed case, or one cancelled for any reason without the prefix, never changes again
      and its log never grows, whatever is asked and whatever the item-service answers. */
  lemma {:induction false} SettledCasesStay(s: RecoveryStore, later: seq<SagaAction>, id: CaseId)
    requires SagaOk(s) && id < |s.cases| && IsSettled(s.cases[id])
    ensures var s' := ActAll(s, later);
      && SagaOk(s') && id < |s'.cases| && s'.cases[id] == s.cases[id] && StepsOf(s', id) == StepsOf(s, id)
  {
    if later != [] {
      SettledCasesStay(s, later[..|later| - 1], id);
      ActKeepsSettled(ActAll(s, later[..|later| - 1]), later[|later| - 1], id);
      ActKeepsOk(ActAll(s, later[..|later| - 1]), later[|later| - 1]);
    }
  }

  // ---- Exactly when a user's cancellation is final ----

  /** A case its user cancelled successfully, then another event for its match. */
  ghost predicate CancelledThenAccepted(s: RecoveryStore, id: CaseId, reason: Option<string>, e: AcceptedEnvelope) {
    && SagaOk(s)
    && id < |s.cases| && s.cases[id].status.IN_PROGRESS?
    && e.isMatchAccepted && e.matchId == s.cases[id].matchId && e.eventId !in s.processed
  }

  ghost predicate LeftAlone(s: RecoveryStore, s': RecoveryStore, id: CaseId) {
    && id < |s.cases| && id < |s'.cases|
    && s'.cases[id] == s.cases[id] && StepsOf(s', id) == StepsOf(s, id)
  }

  lemma NoOtherActiveAfterCancel(s: RecoveryStore, id: CaseId, reason: Option<string>)
    requires SagaOk(s) && id < |s.cases| && s.cases[id].status.IN_PROGRESS?
    ensures var s1 := CancelCase(s, id, reason, Accepted).0;
      !HasOtherActiveCase(s1.cases, s1.cases[id].found, id)
  {
    var s1 := CancelCase(s, id, reason, Accepted).0;
    assert forall i :: 0 <= i < |s.cases| && i != id ==> s1.cases[i] == s.cases[i];
  }

  lemma CancelLogsClose(s: RecoveryStore, id: CaseId, reason: Option<string>)
    requires SagaOk(s) && id < |s.cases| && s.cases[id].status.IN_PROGRESS?
    ensures var s1 := Act(s, CancelBy(id, reason, Accepted));
      && SagaOk(s1) && |s1.cases| == |s.cases| && s1.cases[id].matchId == s.cases[id].matchId
      && (HasOpenFailurePrefix(ReasonOrDefault(reason)) ==> IsRetryableFailedOpen(s1.cases[id]))
      && s1.processed == s.processed
      && StepsOf(s1, id) == StepsOf(s, id) + [SagaStep(id, CancelStep, SUCCEEDED)]
  {
    ActKeepsOk(s, CancelBy(id, reason, Accepted));
    FilterAppend(s.steps, SagaStep(id, CancelStep, SUCCEEDED), StepOfCase(id));
  }

  lemma RetryLogsOpen(s: RecoveryStore, id: CaseId, e: AcceptedEnvelope, reply: Reply)
    requires SagaOk(s) && id < |s.cases| && IsRetryableFailedOpen(s.cases[id])
    requires e.isMatchAccepted && e.matchId == s.cases[id].matchId && e.eventId !in s.processed
    requires !HasOtherActiveCase(s.cases, s.cases[id].found, id)
    ensures var s2 := Act(s, Deliver(e, reply));
      && id < |s2.cases|
      && (reply.Accepted? ==> s2.cases[id].status.IN_PROGRESS?)
      && StepsOf(s2, id) ==
           StepsOf(s, id) + [SagaStep(id, OpenStep, if reply.Accepted? then SUCCEEDED else StepStatus.FAILED)]
  {
    var reopen := Deliver(e, reply);
    CaseOfMatchIs(s.cases, id);
    IndexKept(s.cases, id, s.cases[id].(status := OPEN, reason := None));
    ActRealizesEffect(s, reopen);
    FilterAppend(s.steps, EffectOf(s, reopen).value.step, StepOfCase(id));
  }

  /** MAIN: the cancelled case is left alone exactly when the user's reason does not start with the
      open-failure prefix. Otherwise the service takes it for a failed open and calls the
      item-service again. */
  lemma CancelIsFinalIff(s: RecoveryStore, id: CaseId, reason: Option<string>, e: AcceptedEnvelope, reply: Reply)
    requires CancelledThenAccepted(s, id, reason, e)
    ensures var s1 := CancelCase(s, id, reason, Accepted).0;
      var s2 := ConsumeAccepted(s1, e, reply).0;
      && id < |s2.cases|
      && (LeftAlone(s1, s2, id) <==> !HasOpenFailurePrefix(ReasonOrDefault(reason)))
  {
    var s1 := Act(s, CancelBy(id, reason, Accepted));
    CancelLogsClose(s, id, reason);
    if HasOpenFailurePrefix(ReasonOrDefault(reason)) {
      NoOtherActiveAfterCancel(s, id, reason);
      RetryLogsOpen(s1, id, e, reply);
    } else {
      ActKeepsSettled(s1, Deliver(e, reply), id);
    }
  }

  lemma {:induction false} UnusedId(ids: set<EventId>) returns (unused: EventId)
    ensures forall id :: id in ids ==> id < unused
    decreases |ids|
  {
    unused := 0;
    if ids != {} {
      var id :| id in ids;
      unused := UnusedId(ids - {id});
      unused := if unused <= id then id + 1 else unused;
      assert ids == ids - {id} + {id};
    }
  }

  /** MAIN: a user's cancellation is final, whatever happens later, exactly when its reason does not
      start with the open-failure prefix. */
  lemma CancelIsFinalForeverIff(s: RecoveryStore, id: CaseId, reason: Option<string>)
    requires SagaOk(s) && id < |s.cases| && s.cases[id].status.IN_PROGRESS?
    ensures var s1 := CancelCase(s, id, reason, Accepted).0;
      (forall later :: LeftAlone(s1, ActAll(s1, later), id)) <==> !HasOpenFailurePrefix(ReasonOrDefault(reason))
  {
    var s1 := Act(s, CancelBy(id, reason, Accepted));
    ActKeepsOk(s, CancelBy(id, reason, Accepted));
    if HasOpenFailurePrefix(ReasonOrDefault(reason)) {
      var unused := UnusedId(s.processed);
      var e := AcceptedEnvelope(unused, true, s.cases[id].matchId, s.cases[id].lost, s.cases[id].found, None);
      CancelIsFinalIff(s, id, reason, e, Accepted);
      OneAction(s1, Deliver(e, Accepted));
      assert !LeftAlone(s1, ActAll(s1, [Deliver(e, Accepted)]), id);
    } else {
      forall later: seq<SagaAction> | true ensures LeftAlone(s1, ActAll(s1, later), id) {
        SettledCasesStay(s1, later, id);
      }
    }
  }

  lemma OneAction(s: RecoveryStore, a: SagaAction)
    ensures ActAll(s, [a]) == Act(s, a)
  {
    assert [a][..0] == [];
  }

  lemma ReopenedLogIsBroken(steps: seq<SagaStep>, close: SagaStep, open: SagaStep)
    requires PhaseOf(steps).Running? && IsClosed(close) && IsOpened(open)
    ensures OpensSucceeded(steps + [close] + [open]) == 2
    ensures !InGrammar(steps + [close] + [open])
  {
    PhaseCountsOpens(steps);
    PhaseAppend(steps, close);
    PhaseAppend(steps + [close], open);
    PhaseMachineIsGrammar(steps + [close] + [open]);
    assert (steps + [close])[..|steps|] == steps;
    assert (steps + [close] + [open])[..|steps| + 1] == steps + [close];
  }

  /** With such a reason, one accepted call reopens the case, and its log leaves the grammar with a
      second successful open. */
  lemma PrefixedReasonBreaksGrammar(s: RecoveryStore, id: CaseId, reason: Option<string>, e: AcceptedEnvelope)
    requires CancelledThenAccepted(s, id, reason, e) && PhasesFit(s)
    requires HasOpenFailurePrefix(ReasonOrDefault(reason))
    ensures var s2 := ConsumeAccepted(CancelCase(s, id, reason, Accepted).0, e, Accepted).0;
      && id < |s2.cases| && s2.cases[id].status.IN_PROGRESS?
      && OpensSucceeded(StepsOf(s2, id)) == 2
      && !InGrammar(StepsOf(s2, id))
  {
    CancelLogsClose(s, id, reason);
    NoOtherActiveAfterCancel(s, id, reason);
    RetryLogsOpen(Act(s, CancelBy(id, reason, Accepted)), id, e, Accepted);
    ReopenedLogIsBroken(StepsOf(s, id), SagaStep(id, CancelStep, SUCCEEDED), SagaStep(id, OpenStep, SUCCEEDED));
  }

  lemma FirstDeliveryOpens(e: AcceptedEnvelope)
    requires e.isMatchAccepted
    ensures var s := Act(NO_CASES, Deliver(e, Accepted));
      && SagaOk(s) && PhasesFit(s)
      && |s.cases| == 1 && s.cases[0].status.IN_PROGRESS? && s.cases[0].matchId == e.matchId
      && s.processed == {e.eventId}
  {
    var c := Case(e.matchId, e.lost, e.found, OPEN, e.decidedBy, None);
    RunsKeepSaga([]);
    RunsKeepPhases([]);
    assert PlanOpen(NO_CASES, e) == Call(0, c);
    ActKeepsOk(NO_CASES, Deliver(e, Accepted));
    ActKeepsPhases(NO_CASES, Deliver(e, Accepted));
  }

  lemma ThreeActions(s: RecoveryStore, a: SagaAction, b: SagaAction, c: SagaAction)
    ensures ActAll(s, [a, b, c]) == Act(Act(Act(s, a), b), c)
  {
    var run := [a, b, c];
    assert run[..2] == [a, b] && run[..2][..1] == [a] && run[..2][..1][..0] == [];
    assert ActAll(s, run[..2][..1]) == Act(s, a);
    assert ActAll(s, run[..2]) == Act(Act(s, a), b);
  }

  const PREFIXED_REASON := "OPEN_FAILED: changed my mind"

  lemma ReasonIsPrefixed()
    ensures HasOpenFailurePrefix(ReasonOrDefault(Some(PREFIXED_REASON)))
  {
    assert PREFIXED_REASON[..12] == OPEN_FAILURE_PREFIX;
  }

  /** A concrete trace from the empty store: open, cancel with a prefixed reason, and another event
      for the match. */
  lemma PrefixedReasonReopens(e1: AcceptedEnvelope, e2: AcceptedEnvelope)
    requires e1 == AcceptedEnvelope(1, true, 7, 10, 20, None) && e2 == e1.(eventId := 2)
    ensures var s := ActAll(NO_CASES,
        [Deliver(e1, Accepted), CancelBy(0, Some(PREFIXED_REASON), Accepted), Deliver(e2, Accepted)]);
      0 < |s.cases| && s.cases[0].status.IN_PROGRESS? && !InGrammar(StepsOf(s, 0))
  {
    var cancel := CancelBy(0, Some(PREFIXED_REASON), Accepted);
    ThreeActions(NO_CASES, Deliver(e1, Accepted), cancel, Deliver(e2, Accepted));
    FirstDeliveryOpens(e1);
    ReasonIsPrefixed();
    PrefixedReasonBreaksGrammar(Act(NO_CASES, Deliver(e1, Accepted)), 0, Some(PREFIXED_REASON), e2);
  }

  // ---- One event per match ----

  /** Deliveries of one match all carry one event id, as when each match is accepted once. */
  ghost predicate OneEventPerMatch(run: seq<SagaAction>) {
    forall i, j :: 0 <= i < |run| && 0 <= j < |run| && Accepts(run[i]) && Accepts(run[j]) ==>
      run[i].event.matchId == run[j].event.matchId ==> run[i].event.eventId == run[j].event.eventId
  }

  predicate Accepts(a: SagaAction) {
    a.Deliver? && a.event.isMatchAccepted
  }

  /** The delivery carries the id its match's event has. */
  predicate CarriesId(a: SagaAction, idOf: MatchId -> EventId) {
    Accepts(a) ==> a.event.eventId == idOf(a.event.matchId)
  }

  /** A log past its opening has its match's event registered, so only unopened cases are opened. */
  ghost predicate OpenedByItsEvent(s: RecoveryStore, id: CaseId, idOf: MatchId -> EventId)
    requires id < |s.cases|
  {
    var c, phase := s.cases[id], PhaseOf(StepsOf(s, id));
    && (phase == PhaseOfCase(c) || (phase.Closed? && c.status.CANCELLED?))
    && (!phase.NotOpened? ==> idOf(c.matchId) in s.processed)
  }

  /** The step's case, new or not, advances as its log does, or was just cancelled by its user. */
  lemma EffectFitsLog(s: RecoveryStore, a: SagaAction, idOf: MatchId -> EventId, phase: Phase)
    requires SagaOk(s) && CarriesId(a, idOf) && EffectOf(s, a).Some?
    requires var id := EffectOf(s, a).value.id;
      if id < |s.cases| then
        && (phase == PhaseOfCase(s.cases[id]) || (phase.Closed? && s.cases[id].status.CANCELLED?))
        && (!phase.NotOpened? ==> idOf(s.cases[id].matchId) in s.processed)
      else phase.NotOpened?
    ensures var f := EffectOf(s, a).value; var phase' := Advance(phase, f.step);
      && (phase' == PhaseOfCase(f.after) || (phase'.Closed? && f.after.status.CANCELLED?))
      && (!phase'.NotOpened? ==>
            || (Registers(s, a) && idOf(f.after.matchId) == a.event.eventId)
            || idOf(f.after.matchId) in s.processed)
  {
    EffectFacts(s, a);
    if a.Deliver? {
      assert EffectOf(s, a).value.after.matchId == a.event.matchId;
    }
  }

  lemma ActKeepsOpenedByEvent(s: RecoveryStore, a: SagaAction, id: CaseId, idOf: MatchId -> EventId)
    requires SagaOk(s) && CarriesId(a, idOf) && id < |Act(s, a).cases|
    requires id < |s.cases| ==> OpenedByItsEvent(s, id, idOf)
    ensures OpenedByItsEvent(Act(s, a), id, idOf)
  {
    ActRealizesEffect(s, a);
    if EffectOf(s, a).Some? {
      var f := EffectOf(s, a).value;
      EffectFacts(s, a);
      FilterAppend(s.steps, f.step, StepOfCase(id));
      if id == f.id {
        assert LogOk(s, id);
        PhaseAppend(StepsOf(s, id), f.step);
        EffectFitsLog(s, a, idOf, PhaseOf(StepsOf(s, id)));
      }
    }
  }

  lemma {:induction false} RunsKeepOpenedByEvent(run: seq<SagaAction>, id: CaseId, idOf: MatchId -> EventId)
    requires forall k :: 0 <= k < |run| ==> CarriesId(run[k], idOf)
    requires id < |ActAll(NO_CASES, run).cases|
    ensures OpenedByItsEvent(ActAll(NO_CASES, run), id, idOf)
  {
    if run != [] {
      var before := run[..|run| - 1];
      var s := ActAll(NO_CASES, before);
      RunsKeepSaga(before);
      if id < |s.cases| { RunsKeepOpenedByEvent(before, id, idOf); }
      ActKeepsOpenedByEvent(s, run[|run| - 1], id, idOf);
    }
  }

  ghost function IdIn(run: seq<SagaAction>, matchId: MatchId): EventId {
    if k :| 0 <= k < |run| && Accepts(run[k]) && run[k].event.matchId == matchId then run[k].event.eventId else 0
  }

  /** MAIN: whatever reasons users give, if all deliveries of a match carry one event id, every case's
      log is in the grammar, with at most one successful open. */
  lemma OneEventPerMatchKeepsGrammar(run: seq<SagaAction>, id: CaseId)
    requires OneEventPerMatch(run) && id < |ActAll(NO_CASES, run).cases|
    ensures var steps := StepsOf(ActAll(NO_CASES, run), id);
      InGrammar(steps) && OpensSucceeded(steps) <= 1
  {
    var steps := StepsOf(ActAll(NO_CASES, run), id);
    RunsKeepSaga(run);
    RunsKeepOpenedByEvent(run, id, matchId => IdIn(run, matchId));
    PhaseMachineIsGrammar(steps);
    PhaseCountsOpens(steps);
  }

  // ---- Exactly when a log leaves the grammar ----

  /** The delivery makes the service call the item-service again for a case that was opened before. */
  predicate Reopens(s: RecoveryStore, a: SagaAction) {
    a.Deliver? &&
    var plan := PlanOpen(s, a.event);
    plan.Call? && plan.id < |s.cases| && OpensSucceeded(StepsOf(s, plan.id)) > 0
  }

  ghost predicate NeverReopens(run: seq<SagaAction>) {
    run != [] ==>
      var before := run[..|run| - 1];
      NeverReopens(before) && !Reopens(ActAll(NO_CASES, before), run[|run| - 1])
  }

  ghost predicate AllInGrammar(s: RecoveryStore) {
    forall id: CaseId :: id < |s.cases| ==> InGrammar(StepsOf(s, id))
  }

  /** The log fits the case, or the case was cancelled by its user. */
  predicate FitsLog(c: Case, phase: Phase) {
    !phase.Broken? && (phase == PhaseOfCase(c) || (phase.Closed? && c.status.CANCELLED?))
  }

  ghost predicate AllFit(s: RecoveryStore) {
    forall id: CaseId :: id < |s.cases| ==> FitsLog(s.cases[id], PhaseOf(StepsOf(s, id)))
  }

  lemma FittingLogsAreInGrammar(s: RecoveryStore)
    requires AllFit(s)
    ensures AllInGrammar(s)
  {
    forall id: CaseId | id < |s.cases| ensures InGrammar(StepsOf(s, id)) {
      PhaseMachineIsGrammar(StepsOf(s, id));
    }
  }

  /** The step's effect on its own case: the log still fits unless the case is opened again. */
  lemma EffectFitsIff(s: RecoveryStore, a: SagaAction)
    requires SagaOk(s) && AllFit(s) && EffectOf(s, a).Some?
    ensures var f := EffectOf(s, a).value;
      var phase := if f.id < |s.cases| then PhaseOf(StepsOf(s, f.id)) else NotOpened;
      if Reopens(s, a) then Advance(phase, f.step).Broken? else FitsLog(f.after, Advance(phase, f.step))
  {
    EffectFacts(s, a);
    var id := EffectOf(s, a).value.id;
    if id < |s.cases| {
      assert FitsLog(s.cases[id], PhaseOf(StepsOf(s, id)));
      PhaseCountsOpens(StepsOf(s, id));
    }
  }

  /** A step that reaches the item-service adds to the log of its own case and touches no other. */
  lemma LogAfterAct(s: RecoveryStore, a: SagaAction, id: CaseId)
    requires SagaOk(s) && EffectOf(s, a).Some? && id < |Act(s, a).cases|
    ensures var f := EffectOf(s, a).value; var s' := Act(s, a);
      if id == f.id then
        && s'.cases[id] == f.after && StepsOf(s', id) == StepsOf(s, id) + [f.step]
        && (id < |s.cases| || StepsOf(s, id) == [])
      else
        id < |s.cases| && s'.cases[id] == s.cases[id] && StepsOf(s', id) == StepsOf(s, id)
  {
    ActRealizesEffect(s, a);
    EffectFacts(s, a);
    FilterAppend(s.steps, EffectOf(s, a).value.step, StepOfCase(id));
    assert LogOk(s, id);
  }

  lemma ReopeningBreaks(s: RecoveryStore, a: SagaAction)
    requires SagaOk(s) && AllFit(s) && Reopens(s, a)
    ensures !AllInGrammar(Act(s, a))
  {
    var f := EffectOf(s, a).value;
    ActRealizesEffect(s, a);
    EffectFitsIff(s, a);
    LogAfterAct(s, a, f.id);
    PhaseAppend(StepsOf(s, f.id), f.step);
    PhaseMachineIsGrammar(StepsOf(Act(s, a), f.id));
  }

  lemma ActFits(s: RecoveryStore, a: SagaAction)
    requires SagaOk(s) && AllFit(s) && !Reopens(s, a)
    ensures AllFit(Act(s, a))
  {
    var s' := Act(s, a);
    ActRealizesEffect(s, a);
    if EffectOf(s, a).Some? {
      var f := EffectOf(s, a).value;
      EffectFitsIff(s, a);
      forall id: CaseId | id < |s'.cases| ensures FitsLog(s'.cases[id], PhaseOf(StepsOf(s', id))) {
        LogAfterAct(s, a, id);
        PhaseAppend(StepsOf(s, id), f.step);
      }
    }
  }

  /** A log outside the grammar never comes back. */
  lemma BrokenStaysBroken(s: RecoveryStore, a: SagaAction)
    requires SagaOk(s) && !AllInGrammar(s)
    ensures !AllInGrammar(Act(s, a))
  {
    var id: CaseId :| id < |s.cases| && !InGrammar(StepsOf(s, id));
    ActRealizesEffect(s, a);
    PhaseMachineIsGrammar(StepsOf(s, id));
    if EffectOf(s, a).Some? {
      EffectFacts(s, a);
      LogAfterAct(s, a, id);
      PhaseAppend(StepsOf(s, id), EffectOf(s, a).value.step);
    }
    PhaseMachineIsGrammar(StepsOf(Act(s, a), id));
  }

  lemma {:induction false} RunsFit(run: seq<SagaAction>)
    requires NeverReopens(run)
    ensures AllFit(ActAll(NO_CASES, run))
  {
    if run != [] {
      var before := run[..|run| - 1];
      RunsKeepSaga(before);
      RunsFit(before);
      ActFits(ActAll(NO_CASES, before), run[|run| - 1]);
    }
  }

  /** MAIN: over every run, with whatever reasons, events and replies, every case's log is in the grammar
      if and only if no delivery calls the item-service again for a case that was opened before. */
  lemma {:induction false} GrammarHoldsIff(run: seq<SagaAction>)
    ensures AllInGrammar(ActAll(NO_CASES, run)) <==> NeverReopens(run)
  {
    if run != [] {
      var before, a := run[..|run| - 1], run[|run| - 1];
      var s := ActAll(NO_CASES, before);
      RunsKeepSaga(before);
      GrammarHoldsIff(before);
      if NeverReopens(before) {
        RunsFit(before);
        if Reopens(s, a) {
          ReopeningBreaks(s, a);
        } else {
          ActFits(s, a);
          FittingLogsAreInGrammar(Act(s, a));
        }
      } else {
        BrokenStaysBroken(s, a);
      }
    }
  }
}
