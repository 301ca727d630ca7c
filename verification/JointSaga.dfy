/** The recovery saga together with the item-service it calls. */
module JointSaga {
  import opened Domain
  import Items = ItemAggregate
  import opened RecoveryCases

  /** What happens to one request: it gets through and is answered, it fails without effect, or it is
      carried out and the answer is lost, which the client cannot tell from a failure. */
  datatype Network = Reachable | Unreachable(message: string) | ReplyLost(message: string)

  const REJECTED := "item-service rejected the request"

  /** `target_status` is constrained by the request schema. */
  type CancelTarget = t: ItemStatus | t.AVAILABLE? || t.MATCHED? witness MATCHED

  datatype JointState = JointState(items: Items.ItemStore, saga: RecoveryStore)

  const START := JointState(Items.NO_ITEMS, NO_CASES)

  function ItemsOfCase(c: Case): seq<ItemId> {
    [c.lost, c.found]
  }

  /** A batch request over HTTP: any rejection is reported as a failure of the call. */
  function Remote(items: Items.ItemStore, ids: seq<ItemId>, target: ItemStatus, mode: Items.TransitionMode,
                  net: Network):
    (Items.ItemStore, Reply)
  {
    if net.Unreachable? then (items, Refused(net.message))
    else
      var (items', r) := Items.Batch(items, ids, target, mode);
      (items', if net.ReplyLost? then Refused(net.message) else if r.Ok? then Accepted else Refused(REJECTED))
  }

  function Consume(j: JointState, e: AcceptedEnvelope, net: Network): (JointState, Result<CaseId, RecoveryError>) {
    var plan := PlanOpen(j.saga, e);
    var (items', reply) :=
      if plan.Call? then Remote(j.items, ItemsOfCase(plan.activated), IN_RECOVERY, Items.InternalOpen, net)
      else (j.items, Accepted);
    var (saga', r) := ConsumeAccepted(j.saga, e, reply);
    (JointState(items', saga'), r)
  }

  function Cancel(j: JointState, id: CaseId, reason: Option<string>, target: CancelTarget, net: Network):
    (JointState, Result<CaseId, RecoveryError>)
  {
    var (items', reply) :=
      if CancelRefusal(j.saga, id).None? then
        Remote(j.items, ItemsOfCase(j.saga.cases[id]), target, Items.InternalCancel, net)
      else (j.items, Accepted);
    var (saga', r) := CancelCase(j.saga, id, reason, reply);
    (JointState(items', saga'), r)
  }

  function Complete(j: JointState, id: CaseId, net: Network): (JointState, Result<CaseId, RecoveryError>) {
    var (items', reply) :=
      if CompleteRefusal(j.saga, id).None? then
        Remote(j.items, ItemsOfCase(j.saga.cases[id]), RECOVERED, Items.InternalComplete, net)
      else (j.items, Accepted);
    var (saga', r) := CompleteCase(j.saga, id, reply);
    (JointState(items', saga'), r)
  }

  // ---- Runs: anyone may use the public item endpoints, only the saga uses the internal ones ----

  datatype JointAction =
    | Create(id: ItemId, draft: Items.Draft)
    | Update(id: ItemId, patch: Items.Patch)
    | SetStatus(id: ItemId, target: ItemStatus)
    | MatchAccepted(event: AcceptedEnvelope, net: Network)
    | CancelRequest(caseId: CaseId, reason: Option<string>, restored: CancelTarget, net: Network)
    | CompleteRequest(caseId: CaseId, net: Network)

  function Next(j: JointState, a: JointAction): JointState {
    match a
    case Create(id, draft) => j.(items := Items.Create(j.items, id, draft).0)
    case Update(id, patch) => j.(items := Items.Update(j.items, id, patch).0)
    case SetStatus(id, target) => j.(items := Items.SetStatus(j.items, id, target).0)
    case MatchAccepted(e, net) => Consume(j, e, net).0
    case CancelRequest(id, reason, target, net) => Cancel(j, id, reason, target, net).0
    case CompleteRequest(id, net) => Complete(j, id, net).0
  }

  function Run(j: JointState, run: seq<JointAction>): JointState {
    if run == [] then j else Next(Run(j, run[..|run| - 1]), run[|run| - 1])
  }
}
