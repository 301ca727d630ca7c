/** An item is in recovery exactly when one case in progress holds it. Neither service checks this:
    the recovery service guards only found items, the item-service only knows statuses. */
module Exclusivity {
  import opened Domain
  import Items = ItemAggregate
  import opened RecoveryCases
  import opened RecoverySaga
  import opened JointSaga
  import opened ItemBatches

  predicate InRecovery(items: Items.ItemStore, x: ItemId) {
    x in items.items && items.items[x].status.IN_RECOVERY?
  }

  /** The case is in progress and the item is its lost or its found item. */
  predicate Holds(cases: seq<Case>, id: CaseId, x: ItemId) {
    id < |cases| && cases[id].status.IN_PROGRESS? && x in ItemsOfCase(cases[id])
  }

  ghost predicate Held(cases: seq<Case>, x: ItemId) {
    exists id: CaseId :: Holds(cases, id, x)
  }

  ghost predicate HeldOnce(cases: seq<Case>) {
    forall a: CaseId, b: CaseId, x: ItemId :: Holds(cases, a, x) && Holds(cases, b, x) ==> a == b
  }

  ghost predicate Exclusive(j: JointState) {
    && SagaOk(j.saga)
    && HeldOnce(j.saga.cases)
    && (forall x: ItemId :: InRecovery(j.items, x) <==> Held(j.saga.cases, x))
  }

  // ---- The saga half of a joint step ----

  /** The saga action a joint action amounts to, with the reply the item-service gives. */
  function SagaHalf(j: JointState, a: JointAction): Option<SagaAction> {
    match a
    case Create(_, _) => None
    case Update(_, _) => None
    case SetStatus(_, _) => None
    case MatchAccepted(e, net) =>
      var plan := PlanOpen(j.saga, e);
      Some(Deliver(e, if plan.Call? then
                        Remote(j.items, ItemsOfCase(plan.activated), IN_RECOVERY, Items.InternalOpen, net).1
                      else Accepted))
    case CancelRequest(id, reason, target, net) =>
      Some(CancelBy(id, reason, if CancelRefusal(j.saga, id).None? then
                                  Remote(j.items, ItemsOfCase(j.saga.cases[id]), target, Items.InternalCancel, net).1
                                else Accepted))
    case CompleteRequest(id, net) =>
      Some(CompleteBy(id, if CompleteRefusal(j.saga, id).None? then
                            Remote(j.items, ItemsOfCase(j.saga.cases[id]), RECOVERED, Items.InternalComplete, net).1
                          else Accepted))
  }

  lemma SagaHalfIsAct(j: JointState, a: JointAction)
    ensures var half := SagaHalf(j, a);
      Next(j, a).saga == if half.Some? then Act(j.saga, half.value) else j.saga
  {
  }

  lemma SagaStaysOk(j: JointState, a: JointAction)
    requires SagaOk(j.saga)
    ensures SagaOk(Next(j, a).saga)
  {
    SagaHalfIsAct(j, a);
    if SagaHalf(j, a).Some? { ActKeepsOk(j.saga, SagaHalf(j, a).value); }
  }

  // ---- The item half ----

  /** Public commands neither put items into recovery nor take them out. */
  lemma PublicStepsKeepRecovery(j: JointState, a: JointAction, x: ItemId)
    requires a.Create? || a.Update? || a.SetStatus?
    ensures InRecovery(Next(j, a).items, x) <==> InRecovery(j.items, x)
    ensures Next(j, a).saga == j.saga
  {
  }

  /** The request is carried out: it arrives, and every listed item may move. */
  ghost predicate TakesEffect(items: Items.ItemStore, ids: seq<ItemId>, target: ItemStatus,
                              mode: Items.TransitionMode, net: Network)
  {
    !net.Unreachable? && AllMovable(items, ids, target, mode)
  }

  /** A request is accepted exactly when it is carried out and answered. One that is carried out moves
      exactly the listed items; any other changes none. */
  lemma RemoteMeaning(items: Items.ItemStore, ids: seq<ItemId>, target: ItemStatus, mode: Items.TransitionMode,
                      net: Network, x: ItemId)
    ensures var (items', reply) := Remote(items, ids, target, mode, net);
      && (reply.Accepted? <==> net.Reachable? && AllMovable(items, ids, target, mode))
      && (!TakesEffect(items, ids, target, mode, net) ==> items' == items)
      && (TakesEffect(items, ids, target, mode, net) ==>
            && (x in items'.items <==> x in items.items)
            && (x in items.items ==>
                  items'.items[x].status == if x in ids then target else items.items[x].status))
  {
    BatchIsAtomic(items, ids, target, mode);
  }

  // ---- When a reply is lost ----

  /** The reply to a request that was carried out is lost. */
  ghost predicate LosesEffect(j: JointState, a: JointAction) {
    match a
    case Create(_, _) => false
    case Update(_, _) => false
    case SetStatus(_, _) => false
    case MatchAccepted(e, net) =>
      var plan := PlanOpen(j.saga, e);
      && net.ReplyLost? && plan.Call?
      && AllMovable(j.items, ItemsOfCase(plan.activated), IN_RECOVERY, Items.InternalOpen)
    case CancelRequest(id, _, _, net) =>
      net.ReplyLost? && id < |j.saga.cases| && j.saga.cases[id].status.IN_PROGRESS?
    case CompleteRequest(id, net) =>
      net.ReplyLost? && id < |j.saga.cases| && j.saga.cases[id].status.IN_PROGRESS?
  }

  // ---- Opening ----

  lemma CallKeepsExclusive(j: JointState, e: AcceptedEnvelope, net: Network)
    requires Exclusive(j) && PlanOpen(j.saga, e).Call? && !LosesEffect(j, MatchAccepted(e, net))
    ensures Exclusive(Consume(j, e, net).0)
  {
    var j' := Next(j, MatchAccepted(e, net));
    var plan := PlanOpen(j.saga, e);
    var id, ids := plan.id, ItemsOfCase(plan.activated);
    var reply := Remote(j.items, ids, IN_RECOVERY, Items.InternalOpen, net).1;
    SagaStaysOk(j, MatchAccepted(e, net));
    EffectFacts(j.saga, Deliver(e, reply));
    ActRealizesEffect(j.saga, Deliver(e, reply));
    assert forall i: CaseId, x :: i != id ==> (Holds(j'.saga.cases, i, x) <==> Holds(j.saga.cases, i, x));
    assert forall x :: !Holds(j.saga.cases, id, x);
    forall x: ItemId | true
      ensures InRecovery(j'.items, x) <==> Held(j'.saga.cases, x)
      ensures Holds(j'.saga.cases, id, x) ==> !Held(j.saga.cases, x)
    {
      RemoteMeaning(j.items, ids, IN_RECOVERY, Items.InternalOpen, net, x);
      OneCaseChanged(j.saga.cases, j'.saga.cases, id, x);
      assert InRecovery(j.items, x) <==> Held(j.saga.cases, x);
    }
  }

  lemma OpeningKeepsExclusive(j: JointState, e: AcceptedEnvelope, net: Network)
    requires Exclusive(j) && !LosesEffect(j, MatchAccepted(e, net))
    ensures Exclusive(Consume(j, e, net).0)
  {
    var j' := Next(j, MatchAccepted(e, net));
    if PlanOpen(j.saga, e).Call? {
      CallKeepsExclusive(j, e, net);
    } else {
      SagaStaysOk(j, MatchAccepted(e, net));
      assert j'.items == j.items && j'.saga.cases == j.saga.cases;
    }
  }

  /** A case this delivery would open: a new one, or the retry of a failed open. */
  predicate AsksToOpen(s: RecoveryStore, e: AcceptedEnvelope) {
    && e.isMatchAccepted && e.eventId !in s.processed
    && var existing := CaseOfMatch(s.cases, e.matchId);
       existing.None? || IsRetryableFailedOpen(s.cases[existing.value])
  }

  /** The items the case holds once open: a retry keeps those of the first attempt. */
  function ItemsToOpen(s: RecoveryStore, e: AcceptedEnvelope): seq<ItemId> {
    var existing := CaseOfMatch(s.cases, e.matchId);
    if existing.None? then [e.lost, e.found] else ItemsOfCase(s.cases[existing.value])
  }

  lemma BusyItemIsInRecovery(j: JointState, x: ItemId, except: CaseId)
    requires Exclusive(j) && HasOtherActiveCase(j.saga.cases, x, except)
    ensures InRecovery(j.items, x)
  {
    var i: CaseId :| i < |j.saga.cases| && i != except && j.saga.cases[i].found == x && IsActive(j.saga.cases[i]);
    assert Holds(j.saga.cases, i, x);
  }

  /** MAIN: whether a case opens is decided by the item-service alone: it opens exactly when the
      service answers and both items are AVAILABLE or MATCHED. The local guard on the found item never
      refuses a case the item-service would have taken. */
  lemma OpeningSucceedsIff(j: JointState, e: AcceptedEnvelope, net: Network)
    requires Exclusive(j) && AsksToOpen(j.saga, e)
    ensures Consume(j, e, net).1.Ok? <==>
      && net.Reachable?
      && forall x :: x in ItemsToOpen(j.saga, e) ==>
           x in j.items.items && (j.items.items[x].status.AVAILABLE? || j.items.items[x].status.MATCHED?)
  {
    var ids := ItemsToOpen(j.saga, e);
    var existing := CaseOfMatch(j.saga.cases, e.matchId);
    var id := if existing.Some? then existing.value else |j.saga.cases|;
    if HasOtherActiveCase(j.saga.cases, ids[1], id) {
      BusyItemIsInRecovery(j, ids[1], id);
    } else {
      IndexNeverTrips(j.saga, e, Accepted);
      RemoteMeaning(j.items, ids, IN_RECOVERY, Items.InternalOpen, net, ids[1]);
    }
  }

  /** With all other cases as they were, an item is held if it was held elsewhere or is held here now. */
  lemma OneCaseChanged(cases: seq<Case>, cases': seq<Case>, id: CaseId, x: ItemId)
    requires forall i: CaseId :: i != id ==> (Holds(cases', i, x) <==> Holds(cases, i, x))
    ensures Held(cases', x) <==> Holds(cases', id, x) || exists i: CaseId :: i != id && Holds(cases, i, x)
    ensures Held(cases, x) <==> Holds(cases, id, x) || exists i: CaseId :: i != id && Holds(cases, i, x)
  {
  }

  // ---- Closing ----

  /** MAIN: the item-service never rejects a cancellation or completion of a case in progress. */
  lemma ClosingIsNeverRejected(j: JointState, id: CaseId, reason: Option<string>, target: CancelTarget)
    requires Exclusive(j) && id < |j.saga.cases| && j.saga.cases[id].status.IN_PROGRESS?
    ensures Cancel(j, id, reason, target, Reachable).1 == Ok(id)
    ensures Complete(j, id, Reachable).1 == Ok(id)
  {
    var ids := ItemsOfCase(j.saga.cases[id]);
    HeldItemsMove(j, id);
    RemoteMeaning(j.items, ids, target, Items.InternalCancel, Reachable, ids[0]);
    RemoteMeaning(j.items, ids, RECOVERED, Items.InternalComplete, Reachable, ids[0]);
  }

  /** MAIN: a cancellation or completion succeeds exactly when the case exists, is in progress and the
      item-service answers. Otherwise every case stays as it was, and so does every item, unless the
      request was carried out and only its reply was lost. */
  lemma ClosingSucceedsIff(j: JointState, id: CaseId, reason: Option<string>, target: CancelTarget, net: Network)
    requires Exclusive(j)
    ensures var open := id < |j.saga.cases| && j.saga.cases[id].status.IN_PROGRESS?;
      && (Cancel(j, id, reason, target, net).1.Ok? <==> open && net.Reachable?)
      && (Complete(j, id, net).1.Ok? <==> open && net.Reachable?)
    ensures var (j', r) := Cancel(j, id, reason, target, net);
      r.Err? ==> j'.saga.cases == j.saga.cases &&
                 (j'.items == j.items <==> !LosesEffect(j, CancelRequest(id, reason, target, net)))
    ensures var (j', r) := Complete(j, id, net);
      r.Err? ==> j'.saga.cases == j.saga.cases &&
                 (j'.items == j.items <==> !LosesEffect(j, CompleteRequest(id, net)))
  {
    if id < |j.saga.cases| && j.saga.cases[id].status.IN_PROGRESS? {
      var ids := ItemsOfCase(j.saga.cases[id]);
      HeldItemsMove(j, id);
      assert InRecovery(j.items, ids[0]);
      RemoteMeaning(j.items, ids, target, Items.InternalCancel, net, ids[0]);
      RemoteMeaning(j.items, ids, RECOVERED, Items.InternalComplete, net, ids[0]);
    }
  }

  lemma HeldItemsMove(j: JointState, id: CaseId)
    requires Exclusive(j) && id < |j.saga.cases| && j.saga.cases[id].status.IN_PROGRESS?
    ensures var ids := ItemsOfCase(j.saga.cases[id]);
      && (forall x :: x in ids ==> InRecovery(j.items, x))
      && (forall target: CancelTarget :: AllMovable(j.items, ids, target, Items.InternalCancel))
      && AllMovable(j.items, ids, RECOVERED, Items.InternalComplete)
  {
    forall x | x in ItemsOfCase(j.saga.cases[id]) ensures InRecovery(j.items, x) {
      assert Holds(j.saga.cases, id, x);
    }
  }

  /** A case that lets go of its items, all others being as they were. */
  lemma CaseReleases(j: JointState, j': JointState, id: CaseId)
    requires Exclusive(j) && SagaOk(j'.saga)
    requires forall i: CaseId, x :: Holds(j'.saga.cases, i, x) <==> i != id && Holds(j.saga.cases, i, x)
    requires forall x :: InRecovery(j'.items, x) <==> InRecovery(j.items, x) && !Holds(j.saga.cases, id, x)
    ensures Exclusive(j')
  {
    forall x: ItemId | true ensures InRecovery(j'.items, x) <==> Held(j'.saga.cases, x) {
      assert InRecovery(j.items, x) <==> Held(j.saga.cases, x);
      if i: CaseId :| Holds(j.saga.cases, i, x) && !Holds(j.saga.cases, id, x) {
        assert Holds(j'.saga.cases, i, x);
      }
    }
  }

  /** An answered request to close a case in progress. */
  ghost predicate ClosesCase(j: JointState, a: JointAction) {
    && Exclusive(j) && (a.CancelRequest? || a.CompleteRequest?) && a.net.Reachable?
    && a.caseId < |j.saga.cases| && j.saga.cases[a.caseId].status.IN_PROGRESS?
  }

  lemma ClosedCaseHoldsNothing(j: JointState, a: JointAction)
    requires ClosesCase(j, a)
    ensures forall i: CaseId, x :: Holds(Next(j, a).saga.cases, i, x) <==> i != a.caseId && Holds(j.saga.cases, i, x)
  {
    if a.CancelRequest? {
      ClosingIsNeverRejected(j, a.caseId, a.reason, a.restored);
    } else {
      ClosingIsNeverRejected(j, a.caseId, None, MATCHED);
    }
  }

  lemma ClosedCaseReleases(j: JointState, a: JointAction, x: ItemId)
    requires ClosesCase(j, a)
    ensures InRecovery(Next(j, a).items, x) <==> InRecovery(j.items, x) && !Holds(j.saga.cases, a.caseId, x)
  {
    var ids := ItemsOfCase(j.saga.cases[a.caseId]);
    HeldItemsMove(j, a.caseId);
    if a.CancelRequest? {
      RemoteMeaning(j.items, ids, a.restored, Items.InternalCancel, a.net, x);
    } else {
      RemoteMeaning(j.items, ids, RECOVERED, Items.InternalComplete, a.net, x);
    }
  }

  lemma ClosedKeepsExclusive(j: JointState, a: JointAction)
    requires ClosesCase(j, a)
    ensures Exclusive(Next(j, a))
  {
    SagaStaysOk(j, a);
    ClosedCaseHoldsNothing(j, a);
    forall x: ItemId | true
      ensures InRecovery(Next(j, a).items, x) <==> InRecovery(j.items, x) && !Holds(j.saga.cases, a.caseId, x)
    {
      ClosedCaseReleases(j, a, x);
    }
    CaseReleases(j, Next(j, a), a.caseId);
  }

  lemma ClosingKeepsExclusive(j: JointState, a: JointAction)
    requires Exclusive(j) && (a.CancelRequest? || a.CompleteRequest?) && !LosesEffect(j, a)
    ensures Exclusive(Next(j, a))
  {
    if a.net.Reachable? && a.caseId < |j.saga.cases| && j.saga.cases[a.caseId].status.IN_PROGRESS? {
      ClosedKeepsExclusive(j, a);
    } else {
      SagaStaysOk(j, a);
      if a.CancelRequest? {
        ClosingSucceedsIff(j, a.caseId, a.reason, a.restored, a.net);
      } else {
        ClosingSucceedsIff(j, a.caseId, None, MATCHED, a.net);
      }
    }
  }

  // ---- Every step and every run ----

  lemma NextKeepsExclusive(j: JointState, a: JointAction)
    requires Exclusive(j) && !LosesEffect(j, a)
    ensures Exclusive(Next(j, a))
  {
    if a.MatchAccepted? {
      OpeningKeepsExclusive(j, a.event, a.net);
    } else if a.CancelRequest? || a.CompleteRequest? {
      ClosingKeepsExclusive(j, a);
    } else {
      forall x: ItemId | true ensures InRecovery(Next(j, a).items, x) <==> InRecovery(j.items, x) {
        PublicStepsKeepRecovery(j, a, x);
      }
    }
  }

  /** In recovery, but held by no case. */
  ghost predicate Stranded(j: JointState, x: ItemId) {
    SagaOk(j.saga) && InRecovery(j.items, x) && !Held(j.saga.cases, x)
  }

  /** Losing the reply to an open that was carried out strands both items. */
  lemma LostOpenStrands(j: JointState, e: AcceptedEnvelope, message: string, x: ItemId)
    requires Exclusive(j) && LosesEffect(j, MatchAccepted(e, ReplyLost(message)))
    requires x in ItemsOfCase(PlanOpen(j.saga, e).activated)
    ensures Stranded(Next(j, MatchAccepted(e, ReplyLost(message))), x)
  {
    var plan := PlanOpen(j.saga, e);
    var half := Deliver(e, Refused(message));
    var j' := Next(j, MatchAccepted(e, ReplyLost(message)));
    ActKeepsOk(j.saga, half);
    EffectFacts(j.saga, half);
    ActRealizesEffect(j.saga, half);
    RemoteMeaning(j.items, ItemsOfCase(plan.activated), IN_RECOVERY, Items.InternalOpen, ReplyLost(message), x);
    assert !InRecovery(j.items, x);
    assert forall i: CaseId :: i != plan.id ==> (Holds(j'.saga.cases, i, x) <==> Holds(j.saga.cases, i, x));
    OneCaseChanged(j.saga.cases, j'.saga.cases, plan.id, x);
  }

  /** Losing the reply to a cancellation or completion leaves the case in progress without its items. */
  lemma LostCloseReleases(j: JointState, a: JointAction, x: ItemId)
    requires Exclusive(j) && (a.CancelRequest? || a.CompleteRequest?) && LosesEffect(j, a)
    requires x in ItemsOfCase(j.saga.cases[a.caseId])
    ensures var j' := Next(j, a); Holds(j'.saga.cases, a.caseId, x) && !InRecovery(j'.items, x)
  {
    var ids := ItemsOfCase(j.saga.cases[a.caseId]);
    HeldItemsMove(j, a.caseId);
    if a.CancelRequest? {
      RemoteMeaning(j.items, ids, a.restored, Items.InternalCancel, a.net, x);
    } else {
      RemoteMeaning(j.items, ids, RECOVERED, Items.InternalComplete, a.net, x);
    }
  }

  /** MAIN: a step breaks exclusivity exactly when it loses the reply to a request that was carried
      out, be it an opening, a cancellation or a completion. */
  lemma NextKeepsExclusiveIff(j: JointState, a: JointAction)
    requires Exclusive(j)
    ensures Exclusive(Next(j, a)) <==> !LosesEffect(j, a)
  {
    if !LosesEffect(j, a) {
      NextKeepsExclusive(j, a);
    } else if a.MatchAccepted? {
      var x := PlanOpen(j.saga, a.event).activated.lost;
      LostOpenStrands(j, a.event, a.net.message, x);
      assert a == MatchAccepted(a.event, ReplyLost(a.net.message));
    } else {
      LostCloseReleases(j, a, j.saga.cases[a.caseId].lost);
    }
  }

  /** No request of the run was carried out without being answered. */
  ghost predicate NothingLost(run: seq<JointAction>) {
    run != [] ==>
      var before := run[..|run| - 1];
      NothingLost(before) && !LosesEffect(Run(START, before), run[|run| - 1])
  }

  lemma {:induction false} RunsAreExclusive(run: seq<JointAction>)
    requires NothingLost(run)
    ensures Exclusive(Run(START, run))
  {
    if run == [] {
      RunsKeepSaga([]);
    } else {
      RunsAreExclusive(run[..|run| - 1]);
      NextKeepsExclusive(Run(START, run[..|run| - 1]), run[|run| - 1]);
    }
  }

  /** In every state the run passes through. */
  ghost predicate AlwaysExclusive(run: seq<JointAction>) {
    Exclusive(Run(START, run)) && (run != [] ==> AlwaysExclusive(run[..|run| - 1]))
  }

  /** MAIN: over every run of public item commands and saga operations on any network, exclusivity
      holds throughout exactly when no reply to a request that was carried out is lost. */
  lemma {:induction false} AlwaysExclusiveIff(run: seq<JointAction>)
    ensures AlwaysExclusive(run) <==> NothingLost(run)
  {
    if run == [] {
      RunsKeepSaga([]);
    } else {
      var before := run[..|run| - 1];
      AlwaysExclusiveIff(before);
      if NothingLost(before) {
        RunsAreExclusive(before);
        NextKeepsExclusiveIff(Run(START, before), run[|run| - 1]);
      }
    }
  }

  /** MAIN: in every state reachable without losing such a reply, an item is IN_RECOVERY exactly when
      exactly one case in progress holds it, so cases in progress have disjoint items. */
  lemma RecoveryIsExclusive(run: seq<JointAction>, x: ItemId)
    requires NothingLost(run)
    ensures var j := Run(START, run);
      InRecovery(j.items, x) <==>
        exists id: CaseId ::
          Holds(j.saga.cases, id, x) && forall other: CaseId :: Holds(j.saga.cases, other, x) ==> other == id
    ensures HeldOnce(Run(START, run).saga.cases)
  {
    RunsAreExclusive(run);
    var j := Run(START, run);
    assert InRecovery(j.items, x) <==> Held(j.saga.cases, x);
    if InRecovery(j.items, x) {
      var id: CaseId :| Holds(j.saga.cases, id, x);
      assert forall other: CaseId :: Holds(j.saga.cases, other, x) ==> other == id;
    }
  }

  // ---- What a lost open leads to ----

  lemma StrandedStays(j: JointState, a: JointAction, x: ItemId)
    requires Stranded(j, x)
    ensures Stranded(Next(j, a), x)
  {
    var j' := Next(j, a);
    SagaStaysOk(j, a);
    SagaHalfIsAct(j, a);
    if a.Create? || a.Update? || a.SetStatus? {
      PublicStepsKeepRecovery(j, a, x);
    } else {
      var half := SagaHalf(j, a).value;
      ActRealizesEffect(j.saga, half);
      var f := EffectOf(j.saga, half);
      if f.Some? {
        EffectFacts(j.saga, half);
        var id := f.value.id;
        assert !Holds(j.saga.cases, id, x);
        assert forall i: CaseId :: i != id ==> (Holds(j'.saga.cases, i, x) <==> Holds(j.saga.cases, i, x));
        OneCaseChanged(j.saga.cases, j'.saga.cases, id, x);
        var ids := ItemsOfCase(f.value.after);
        if a.MatchAccepted? {
          RemoteMeaning(j.items, ids, IN_RECOVERY, Items.InternalOpen, a.net, x);
        } else if a.CancelRequest? {
          RemoteMeaning(j.items, ids, a.restored, Items.InternalCancel, a.net, x);
        } else {
          RemoteMeaning(j.items, ids, RECOVERED, Items.InternalComplete, a.net, x);
        }
      } else {
        assert j'.items == j.items;
      }
    }
  }

  /** MAIN: why replies must not be lost. A stranded item stays in recovery, held by no
      case, through every later run: no retry, no cancellation and no public command frees it. */
  lemma {:induction false} StrandedForever(j: JointState, later: seq<JointAction>, x: ItemId)
    requires Stranded(j, x)
    ensures Stranded(Run(j, later), x)
  {
    if later != [] {
      StrandedForever(j, later[..|later| - 1], x);
      StrandedStays(Run(j, later[..|later| - 1]), later[|later| - 1], x);
    }
  }

  lemma TwoCreations(a: Items.Draft, b: Items.Draft)
    ensures var j := Run(START, [Create(1, a), Create(2, b)]);
      && NothingLost([Create(1, a), Create(2, b)])
      && j.saga == NO_CASES
      && j.items.items == map[1 := Items.FromDraft(1, a), 2 := Items.FromDraft(2, b)]
  {
    var run := [Create(1, a), Create(2, b)];
    assert run[..1] == [Create(1, a)] && run[..1][..0] == [];
    assert Run(START, run[..1][..0]) == START;
    assert Run(START, run[..1]) == Next(START, Create(1, a));
    assert NothingLost(run[..1][..0]);
    assert NothingLost(run[..1]);
  }

  /** A run from the start that strands two items: both are created, a match of them is accepted, and
      the reply to the opening is lost. Nothing that happens later frees them. */
  lemma LostReplyExample(a: Items.Draft, b: Items.Draft, e: AcceptedEnvelope, later: seq<JointAction>)
    requires e == AcceptedEnvelope(1, true, 7, 1, 2, None)
    ensures var j := Run(START, [Create(1, a), Create(2, b), MatchAccepted(e, ReplyLost("timed out"))]);
      forall x :: x in {1, 2} ==> Stranded(Run(j, later), x)
  {
    var run := [Create(1, a), Create(2, b), MatchAccepted(e, ReplyLost("timed out"))];
    assert run[..2] == [Create(1, a), Create(2, b)];
    TwoCreations(a, b);
    RunsAreExclusive(run[..2]);
    var j := Run(START, run[..2]);
    assert PlanOpen(j.saga, e) == RecoveryCases.Call(0, Case(7, 1, 2, OPEN, None, None));
    forall x | x in {1, 2} ensures Stranded(Run(Run(START, run), later), x) {
      LostOpenStrands(j, e, "timed out", x);
      StrandedForever(Run(START, run), later, x);
    }
  }
}
