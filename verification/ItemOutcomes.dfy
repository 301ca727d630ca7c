/** What a request to the item-service brings about, in terms of the items it leaves. */
module ItemOutcomes {
  import opened Domain
  import opened Seqs
  import opened ItemAggregate
  import opened ItemHistory
  import opened ItemBatches

  // ---- Creating ----

  /** The item says what the draft says. */
  predicate SaysDraft(item: Item, d: Draft) {
    && item.classification == d.classification
    && item.title == d.title && item.description == d.description
    && item.category == d.category && item.color == d.color && item.location == d.location
    && item.date == d.date && item.reporter == d.reporter
  }

  /** Creating succeeds exactly for an unused id, and stores and announces an AVAILABLE item at version
      1 that says what the draft says. */
  lemma CreationOutcome(s: ItemStore, id: ItemId, d: Draft)
    ensures var (s', r) := Create(s, id, d);
      && (r.Ok? <==> id !in s.items)
      && (r.Err? ==> s' == s && r.error == DuplicateItem)
      && (r.Ok? ==>
            && r.value.id == id && SaysDraft(r.value, d) && r.value.status == AVAILABLE && r.value.version == 1
            && s' == ItemStore(s.items[id := r.value],
                               s.history + [HistoryEntry(id, None, AVAILABLE)],
                               s.outbox + [Envelope(|s.outbox|, ItemCreated, id, 1, r.value)]))
  {
  }

  // ---- What commands keep ----

  /** Whether the command is a patch of the item that gives the n-th field. */
  predicate Gives(c: ItemCommand, id: ItemId, field: nat) {
    c.UpdateItem? && c.id == id &&
    match field
    case 0 => c.patch.title.Some?
    case 1 => c.patch.description.Some?
    case 2 => c.patch.category.Some?
    case 3 => c.patch.color.Some?
    case 4 => c.patch.location.Some?
    case 5 => c.patch.date.Some?
    case 6 => c.patch.reporter.Some?
    case _ => false
  }

  predicate SameField(a: Item, b: Item, field: nat) {
    match field
    case 0 => a.title == b.title
    case 1 => a.description == b.description
    case 2 => a.category == b.category
    case 3 => a.color == b.color
    case 4 => a.location == b.location
    case 5 => a.date == b.date
    case 6 => a.reporter == b.reporter
    case _ => true
  }

  lemma BatchKeepsFields(s: ItemStore, ids: seq<ItemId>, target: ItemStatus, mode: TransitionMode, id: ItemId)
    requires id in s.items
    ensures var s' := Batch(s, ids, target, mode).0;
      && id in s'.items && s'.items[id].classification == s.items[id].classification
      && forall field: nat :: SameField(s'.items[id], s.items[id], field)
  {
    BatchIsAtomic(s, ids, target, mode);
  }

  lemma CommandKeepsFields(s: ItemStore, c: ItemCommand, id: ItemId)
    requires id in s.items
    ensures var s' := Perform(s, c);
      && id in s'.items && s'.items[id].classification == s.items[id].classification
      && forall field: nat :: !Gives(c, id, field) ==> SameField(s'.items[id], s.items[id], field)
  {
    match c
    case CreateItem(_, _) =>
    case UpdateItem(_, _) =>
    case UpdateStatus(_, _) =>
    case Open(ids) => BatchKeepsFields(s, ids, IN_RECOVERY, InternalOpen, id);
    case Cancel(ids, target) => BatchKeepsFields(s, ids, target, InternalCancel, id);
    case Complete(ids) => BatchKeepsFields(s, ids, RECOVERED, InternalComplete, id);
  }

  predicate GivesNone(commands: seq<ItemCommand>, id: ItemId, field: nat) {
    forall k :: 0 <= k < |commands| ==> !Gives(commands[k], id, field)
  }

  lemma {:induction false} RunsKeepFields(run: seq<ItemCommand>, later: seq<ItemCommand>, id: ItemId, field: nat)
    requires id in PerformAll(run).items
    ensures var s, s' := PerformAll(run), PerformAll(run + later);
      && id in s'.items && s'.items[id].classification == s.items[id].classification
      && (GivesNone(later, id, field) ==> SameField(s'.items[id], s.items[id], field))
  {
    if later == [] {
      assert run + later == run;
    } else {
      var before, c := later[..|later| - 1], later[|later| - 1];
      assert (run + later)[..|run + later| - 1] == run + before;
      RunsKeepFields(run, before, id, field);
      CommandKeepsFields(PerformAll(run + before), c, id);
    }
  }

  /** MAIN: after any later commands an item still has the classification it was created with, and every
      field as drafted that no patch gave. */
  lemma ItemsSayTheirDrafts(run: seq<ItemCommand>, id: ItemId, d: Draft, later: seq<ItemCommand>, field: nat)
    requires id !in PerformAll(run).items
    ensures var s := PerformAll(run + [CreateItem(id, d)] + later);
      && id in s.items && s.items[id].id == id
      && s.items[id].classification == d.classification
      && forall drafted: Item :: SaysDraft(drafted, d) && GivesNone(later, id, field) ==>
           SameField(s.items[id], drafted, field)
  {
    var start := run + [CreateItem(id, d)];
    assert start[..|start| - 1] == run;
    CreationOutcome(PerformAll(run), id, d);
    RunsKeepFields(start, later, id, field);
    RunsKeepLogs(start + later);
    assert ItemOk(PerformAll(start + later), id);
  }

  // ---- Updating ----

  predicate GivesNothing(p: Patch) {
    && p.title == None && p.description == None && p.category == None && p.color == None && p.location == None
    && p.date == None && p.reporter == None
  }

  /** Why an update is refused. */
  lemma UpdateRefusals(s: ItemStore, id: ItemId, p: Patch)
    requires StoreOk(s)
    ensures var (s', r) := Update(s, id, p);
      && (r == Err(ItemNotFound) <==> id !in s.items)
      && (r == Err(NoFieldGiven) <==> id in s.items && GivesNothing(p))
      && (r == Err(NoEffectiveChange) <==>
            id in s.items && !GivesNothing(p) && forall field: nat :: !Differs(s.items[id], p, field))
  {
    PatchIsIdempotent(s, id, p);
  }

  // ---- The status machine ----

  const PUBLIC_MOVES: set<(ItemStatus, ItemStatus)> :=
    { (AVAILABLE, MATCHED), (AVAILABLE, CANCELLED), (AVAILABLE, CLOSED),
      (MATCHED, AVAILABLE), (MATCHED, CANCELLED), (MATCHED, CLOSED),
      (RECOVERED, CLOSED) }

  /** The public endpoint makes exactly the seven public moves. */
  lemma StatusUpdateOutcome(s: ItemStore, id: ItemId, target: ItemStatus)
    requires StoreOk(s)
    ensures var (s', r) := SetStatus(s, id, target);
      && (r.Ok? <==> id in s.items && (s.items[id].status, target) in PUBLIC_MOVES)
      && (r.Err? ==> s' == s)
      && (r.Ok? ==>
            var item := s.items[id].(status := target, version := s.items[id].version + 1);
            && r.value == item
            && s' == ItemStore(s.items[id := item],
                               s.history + [HistoryEntry(id, Some(s.items[id].status), target)],
                               s.outbox + [Envelope(|s.outbox|, ItemUpdated, id, item.version, item)]))
  {
    if id in s.items {
      assert ItemOk(s, id);
    }
  }

  /** Why a status update is refused. */
  lemma StatusUpdateRefusals(s: ItemStore, id: ItemId, target: ItemStatus)
    requires SetStatus(s, id, target).1.Err?
    ensures SetStatus(s, id, target).1.error ==
      if id !in s.items then ItemNotFound
      else if target == IN_RECOVERY || target == RECOVERED then ReservedForRecovery
      else if s.items[id].status == target then SameStatus
      else if s.items[id].status == CANCELLED || s.items[id].status == CLOSED then TerminalItem
      else TransitionNotAllowed
  {
  }

  /** Every listed item exists and has one of the statuses. */
  ghost predicate AllIn(s: ItemStore, ids: seq<ItemId>, statuses: set<ItemStatus>) {
    forall id :: id in ids ==> id in s.items && s.items[id].status in statuses
  }

  /** The listed items have the status and are one version on; all others are as they were. */
  ghost predicate MovedTo(s: ItemStore, s': ItemStore, ids: seq<ItemId>, target: ItemStatus) {
    && s'.items.Keys == s.items.Keys
    && forall id :: id in s.items ==>
         s'.items[id] == if id in ids then s.items[id].(status := target, version := s.items[id].version + 1)
                         else s.items[id]
  }

  lemma BatchOutcome(s: ItemStore, ids: seq<ItemId>, target: ItemStatus, mode: TransitionMode)
    requires StoreOk(s)
    ensures var (s', r) := Batch(s, ids, target, mode);
      && (r.Ok? <==> AllMovable(s, ids, target, mode))
      && (r.Ok? ==> MovedTo(s, s', ids, target))
      && (r == Err(ItemNotFound) <==> exists id :: id in ids && id !in s.items)
  {
    BatchIsAtomic(s, ids, target, mode);
    assert forall id :: id in Dedup(ids) <==> id in ids;
    forall id | id in s.items ensures s.items[id].id == id { assert ItemOk(s, id); }
    if AllExist(s, Dedup(ids)) { MoveAllFindsItems(s, Dedup(ids), target, mode); }
  }

  lemma {:induction false} MoveAllFindsItems(s: ItemStore, ids: seq<ItemId>, target: ItemStatus, mode: TransitionMode)
    requires forall id :: id in ids ==> id in s.items
    ensures MoveAll(s, ids, target, mode) != Err(ItemNotFound)
  {
    if ids != [] {
      MoveAllFindsItems(s, ids[..|ids| - 1], target, mode);
    }
  }

  /** Opening moves AVAILABLE and MATCHED items to IN_RECOVERY. */
  lemma OpeningOutcome(s: ItemStore, ids: seq<ItemId>)
    requires StoreOk(s)
    ensures var (s', r) := OpenRecovery(s, ids);
      && (r.Ok? <==> AllIn(s, ids, {AVAILABLE, MATCHED}))
      && (r.Ok? ==> MovedTo(s, s', ids, IN_RECOVERY))
  {
    BatchOutcome(s, ids, IN_RECOVERY, InternalOpen);
    assert AllMovable(s, ids, IN_RECOVERY, InternalOpen) <==> AllIn(s, ids, {AVAILABLE, MATCHED});
  }

  /** Cancelling moves items from IN_RECOVERY to the requested status, AVAILABLE or MATCHED. */
  lemma CancellingOutcome(s: ItemStore, ids: seq<ItemId>, target: ItemStatus)
    requires StoreOk(s) && (target == AVAILABLE || target == MATCHED)
    ensures var (s', r) := CancelRecovery(s, ids, target);
      && (r.Ok? <==> AllIn(s, ids, {IN_RECOVERY}))
      && (r.Ok? ==> MovedTo(s, s', ids, target))
  {
    BatchOutcome(s, ids, target, InternalCancel);
    assert AllMovable(s, ids, target, InternalCancel) <==> AllIn(s, ids, {IN_RECOVERY});
  }

  /** Any other status is refused, unless no item is listed. */
  lemma CancellingRefusesOthers(s: ItemStore, ids: seq<ItemId>, target: ItemStatus)
    requires target != AVAILABLE && target != MATCHED && ids != []
    ensures var (s', r) := CancelRecovery(s, ids, target); r.Err? && s' == s
  {
    assert ids[0] in ids;
    assert !AllMovable(s, ids, target, InternalCancel);
    BatchIsAtomic(s, ids, target, InternalCancel);
  }

  /** Completing moves items from IN_RECOVERY to RECOVERED. */
  lemma CompletingOutcome(s: ItemStore, ids: seq<ItemId>)
    requires StoreOk(s)
    ensures var (s', r) := CompleteRecovery(s, ids);
      && (r.Ok? <==> AllIn(s, ids, {IN_RECOVERY}))
      && (r.Ok? ==> MovedTo(s, s', ids, RECOVERED))
  {
    BatchOutcome(s, ids, RECOVERED, InternalComplete);
    assert AllMovable(s, ids, RECOVERED, InternalComplete) <==> AllIn(s, ids, {IN_RECOVERY});
  }
}
